/**
 * `distribute_winnings`: the drawn players share the pool in proportion to
 * their weights, and each drawn record gets its share as "Winning Amount".
 *
 * `random.choices(players, weights=..., k=winners_count)` samples with
 * replacement; its outcome is the parameter `draws`, the positions of the
 * drawn players in `players`. The returned list holds the very same records
 * (Python returns references to the dicts), so a player drawn twice appears
 * twice and its record is written twice, with the same value both times.
 */
module Distribution {
  import opened Numeric
  import opened Players

  /** One draw's share of the pool: `(w / total_winner_weight) * total_pool`; a part of the total weight gets a part of the pool. */
  function Share(weight: real, totalWeight: real, pool: real): (share: real)
    requires totalWeight != 0.0
    ensures 0.0 < weight <= totalWeight && pool >= 0.0 ==> 0.0 <= share <= pool
    ensures weight == totalWeight ==> share == pool
  {
    ShareBounds(weight, totalWeight, pool);
    (weight / totalWeight) * pool
  }

  lemma ShareBounds(weight: real, totalWeight: real, pool: real)
    requires totalWeight != 0.0
    ensures 0.0 < weight <= totalWeight && pool >= 0.0 ==> 0.0 <= (weight / totalWeight) * pool <= pool
    ensures weight == totalWeight ==> (weight / totalWeight) * pool == pool
  {
    if 0.0 < weight <= totalWeight && pool >= 0.0 {
      ShareWithinPool(weight, totalWeight, pool);
    }
    if weight == totalWeight {
      DivideBySelf(totalWeight);
    }
  }

  /** The share of `pool` of each draw: `(w / total_winner_weight) * total_pool`. */
  function Payouts(weights: seq<real>, pool: real): (payouts: seq<real>)
    requires Sum(weights) != 0.0
    ensures |payouts| == |weights|
  {
    Scaled(Ratios(weights, Sum(weights)), pool)
  }

  /** The "Total Weight" of each drawn record, counting repeats: one entry per draw. */
  function DrawnWeights(players: seq<Player>, draws: seq<nat>): (weights: seq<real>)
    reads players
    requires forall k :: 0 <= k < |draws| ==> draws[k] < |players| && players[draws[k]].totalWeight.Some?
    ensures |weights| == |draws|
  {
    seq(|draws|, k requires 0 <= k < |draws| && draws[k] < |players| && players[draws[k]].totalWeight.Some?
                 reads players => players[draws[k]].totalWeight.value)
  }

  /** The "Winning Amount" of each returned record, in order. */
  ghost function WinningAmounts(winners: seq<Player>): seq<real>
    reads winners
    requires forall k :: 0 <= k < |winners| ==> winners[k].winningAmount.Some?
  {
    seq(|winners|, k requires 0 <= k < |winners| && winners[k].winningAmount.Some?
                   reads winners => winners[k].winningAmount.value)
  }

  /**
   * `distribute_winnings(players, len(draws), totalPool)` once
   * `random.choices` has returned the records at positions `draws`.
   * Dividing by a drawn weight sum of 0 raises ZeroDivisionError before any
   * record is written; with no draws nothing is divided and the result is empty.
   */
  method DistributeWinnings(players: seq<Player>, draws: seq<nat>, totalPool: real)
    returns (result: Result<seq<Player>>)
    requires forall k :: 0 <= k < |draws| ==> draws[k] < |players| && players[draws[k]].totalWeight.Some?
    modifies players
    ensures forall p :: p in players ==>
      p.totalWeight == old(p.totalWeight) && p.winningProbability == old(p.winningProbability)
    ensures result.Failure? <==> |draws| > 0 && Sum(DrawnWeights(players, draws)) == 0.0
    ensures result.Failure? ==>
      result.error == DivisionByZeroError && forall p :: p in players ==> p.winningAmount == old(p.winningAmount)
    ensures result.Success? ==>
      && |result.value| == |draws|
      && (forall k :: 0 <= k < |draws| ==> result.value[k] == players[draws[k]])
      && (forall p :: p in players && p !in result.value ==> p.winningAmount == old(p.winningAmount))
    ensures result.Success? && |draws| > 0 ==>
      var shares := Payouts(DrawnWeights(players, draws), totalPool);
      forall k :: 0 <= k < |draws| ==> result.value[k].winningAmount == Some(shares[k])
  {
    var winners := seq(|draws|, k requires 0 <= k < |draws| && draws[k] < |players| => players[draws[k]]);
    var weights := DrawnWeights(players, draws);
    var totalWinnerWeight := Sum(weights);
    assert forall j :: 0 <= j < |winners| ==> winners[j] in players && weights[j] == winners[j].totalWeight.value;

    // The first division raises before any record is written.
    if |winners| > 0 && totalWinnerWeight == 0.0 {
      return Failure(DivisionByZeroError);
    }
    assert forall p :: p in winners ==> p in players && p.totalWeight.Some?;
    if |winners| > 0 {
      AssignWinningAmounts(winners, totalWinnerWeight, totalPool);
    }
    assert DrawnWeights(players, draws) == weights;
    forall k | 0 <= k < |winners|
      ensures winners[k].winningAmount == Some(Payouts(weights, totalPool)[k])
    {
      assert winners[k] in winners;
      PayoutAt(weights, totalPool, k);
    }
    result := Success(winners);
  }

  /** The loop of `distribute_winnings`: each record in `winners` gets its share; a repeated record is written once per occurrence, with the same value. */
  method AssignWinningAmounts(winners: seq<Player>, totalWinnerWeight: real, totalPool: real)
    requires totalWinnerWeight != 0.0
    requires forall p :: p in winners ==> p.totalWeight.Some?
    modifies winners
    ensures forall p :: p in winners ==>
      p.totalWeight == old(p.totalWeight) && p.winningProbability == old(p.winningProbability)
    ensures forall p :: p in winners ==>
      p.winningAmount == Some(Share(p.totalWeight.value, totalWinnerWeight, totalPool))
  {
    for k := 0 to |winners|
      invariant forall p :: p in winners ==>
        p.totalWeight == old(p.totalWeight) && p.winningProbability == old(p.winningProbability)
      invariant forall p :: p in winners[..k] ==>
        p in winners && p.winningAmount == Some(Share(p.totalWeight.value, totalWinnerWeight, totalPool))
    {
      var winner := winners[k];
      winner.winningAmount := Some(Share(winner.totalWeight.value, totalWinnerWeight, totalPool));
      assert winners[..k + 1] == winners[..k] + [winner];
      forall p | p in winners[..k + 1]
        ensures p in winners && p.winningAmount == Some(Share(p.totalWeight.value, totalWinnerWeight, totalPool))
      {
        if p != winner {
          assert p in winners[..k];
        }
      }
    }
    assert winners[..|winners|] == winners;
  }

  /** The share of one draw, as the script computes it. */
  lemma PayoutAt(weights: seq<real>, pool: real, k: nat)
    requires Sum(weights) != 0.0 && k < |weights|
    ensures |Payouts(weights, pool)| == |weights|
    ensures Payouts(weights, pool)[k] == Share(weights[k], Sum(weights), pool)
  {
    var total := Sum(weights);
    var ratios := Ratios(weights, total);
    assert ratios[k] == weights[k] / total;
    assert Scaled(ratios, pool)[k] == ratios[k] * pool;
  }

  /** Two draws of the same record compute the same amount, so writing it again changes nothing. */
  lemma RepeatedDrawsGetEqualShares(players: seq<Player>, draws: seq<nat>, pool: real, k: nat, l: nat)
    requires forall j :: 0 <= j < |draws| ==> draws[j] < |players| && players[draws[j]].totalWeight.Some?
    requires Sum(DrawnWeights(players, draws)) != 0.0
    requires k < |draws| && l < |draws| && draws[k] == draws[l]
    ensures Payouts(DrawnWeights(players, draws), pool)[k] == Payouts(DrawnWeights(players, draws), pool)[l]
  {
    var weights := DrawnWeights(players, draws);
    PayoutAt(weights, pool, k);
    PayoutAt(weights, pool, l);
  }

  /** The shares of the drawn players, counting repeats, add up to exactly the pool. */
  lemma PayoutsSumToPool(weights: seq<real>, pool: real)
    requires Sum(weights) != 0.0
    ensures Sum(Payouts(weights, pool)) == pool
  {
    var total := Sum(weights);
    SumOfScaled(Ratios(weights, total), pool);
    SumOfRatios(weights, total);
    DivideBySelf(total);
  }

  /** With positive weights and a non-negative pool, no share is negative or larger than the pool. */
  lemma PayoutsWithinPool(weights: seq<real>, pool: real)
    requires forall k :: 0 <= k < |weights| ==> weights[k] > 0.0
    requires |weights| > 0 && pool >= 0.0
    ensures Sum(weights) > 0.0
    ensures forall k :: 0 <= k < |weights| ==> 0.0 <= Payouts(weights, pool)[k] <= pool
  {
    ElementAtMostSum(weights, 0);
    var total := Sum(weights);
    var ratios := Ratios(weights, total);
    assert Payouts(weights, pool) == Scaled(ratios, pool);
    forall k | 0 <= k < |weights|
      ensures 0.0 <= Scaled(ratios, pool)[k] <= pool
    {
      ElementAtMostSum(weights, k);
      ShareWithinPool(weights[k], total, pool);
    }
  }
}
