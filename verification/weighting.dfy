/**
 * `calculate_probabilities`: every player's weight is the logarithm of its
 * stake plus its streak times a multiplier; every player's winning
 * probability is its weight over the sum of all weights. Both are written
 * into the player records in place.
 *
 * `math.log(stake, stake_log_base)` is a foreign transcendental call; it is
 * the parameter `stakeLog` (the script always uses the default base 3), and
 * the only fact assumed of it is `LogFloor`: it is at least 1 from the
 * minimum stake on, as the logarithm to base 3 is.
 */
module Weighting {
  import opened Numeric
  import opened Players

  /** log3(s) >= log3(3) == 1 for every stake s >= 3. */
  ghost predicate LogFloor(stakeLog: int -> real)
  {
    forall s :: s >= MinStake ==> stakeLog(s) >= 1.0
  }

  /** The "Total Weight" of one player: the stake's logarithm, raised by a non-negative streak bonus. */
  function Weight(stakeLog: int -> real, multiplier: real, p: Player): (w: real)
    ensures multiplier >= 0.0 && p.dailyStreak >= 0 ==> w >= stakeLog(p.stake)
    ensures multiplier == 0.0 ==> w == stakeLog(p.stake)
  {
    stakeLog(p.stake) + p.dailyStreak as real * multiplier
  }

  /** The weights of a population, one per record, in order. */
  function Weights(stakeLog: int -> real, multiplier: real, players: seq<Player>): (ws: seq<real>)
    ensures |ws| == |players|
  {
    seq(|players|, i requires 0 <= i < |players| => Weight(stakeLog, multiplier, players[i]))
  }

  /** Position of the first player whose stake `math.log` rejects, or |players| if there is none. */
  function FirstNonPositiveStake(players: seq<Player>): (k: nat)
    ensures k <= |players|
    ensures forall j :: 0 <= j < k ==> players[j].stake > 0
    ensures k < |players| ==> players[k].stake <= 0
  {
    if players == [] || players[0].stake <= 0 then 0 else 1 + FirstNonPositiveStake(players[1..])
  }

  /**
   * `calculate_probabilities(players, streak_multiplier=multiplier)`.
   * The first loop (`AssignWeights`) writes "Total Weight" player by player
   * and stops with LogDomainError at the first stake <= 0; the second loop
   * (`AssignProbabilities`) writes "Winning Probability" and fails with
   * DivisionByZeroError if the weights sum to 0 (for an empty population it
   * does not run, so nothing fails). A record listed twice is written twice
   * with the same value.
   */
  method CalculateProbabilities(players: seq<Player>, stakeLog: int -> real, multiplier: real)
    returns (outcome: Outcome)
    modifies players
    ensures outcome == Fail(LogDomainError) <==> FirstNonPositiveStake(players) < |players|
    ensures outcome == Fail(DivisionByZeroError) <==>
      && FirstNonPositiveStake(players) == |players| > 0
      && Sum(Weights(stakeLog, multiplier, players)) == 0.0
    ensures forall p :: p in players[..FirstNonPositiveStake(players)] ==>
      p.totalWeight == Some(Weight(stakeLog, multiplier, p))
    ensures forall p :: p in players && p !in players[..FirstNonPositiveStake(players)] ==>
      p.totalWeight == old(p.totalWeight)
    ensures outcome == Pass <==>
      && FirstNonPositiveStake(players) == |players|
      && (|players| == 0 || Sum(Weights(stakeLog, multiplier, players)) != 0.0)
    ensures outcome == Pass ==>
      var ws := Weights(stakeLog, multiplier, players);
      forall i :: 0 <= i < |players| ==>
        && players[i].totalWeight == Some(ws[i])
        && players[i].winningProbability == Some(Ratios(ws, Sum(ws))[i])
    ensures outcome != Pass ==> forall p :: p in players ==> p.winningProbability == old(p.winningProbability)
    ensures forall p :: p in players ==> p.winningAmount == old(p.winningAmount)
  {
    var totalWeight;
    outcome, totalWeight := AssignWeights(players, stakeLog, multiplier);
    if outcome != Pass {
      return;
    }
    assert players[..FirstNonPositiveStake(players)] == players;
    outcome := AssignProbabilities(players, totalWeight);
    if outcome == Pass && |players| > 0 {
      var ws := Weights(stakeLog, multiplier, players);
      forall i | 0 <= i < |players|
        ensures players[i].winningProbability == Some(Ratios(ws, Sum(ws))[i])
      {
        assert players[i] in players;
      }
    }
  }

  /** The first loop of `calculate_probabilities`: "Total Weight" of each player, and their sum. */
  method AssignWeights(players: seq<Player>, stakeLog: int -> real, multiplier: real)
    returns (outcome: Outcome, totalWeight: real)
    modifies players
    ensures outcome == Pass || outcome == Fail(LogDomainError)
    ensures outcome == Fail(LogDomainError) <==> FirstNonPositiveStake(players) < |players|
    ensures outcome == Pass ==> totalWeight == Sum(Weights(stakeLog, multiplier, players))
    ensures forall p :: p in players[..FirstNonPositiveStake(players)] ==>
      p.totalWeight == Some(Weight(stakeLog, multiplier, p))
    ensures forall p :: p in players && p !in players[..FirstNonPositiveStake(players)] ==>
      p.totalWeight == old(p.totalWeight)
    ensures forall p :: p in players ==>
      p.winningProbability == old(p.winningProbability) && p.winningAmount == old(p.winningAmount)
  {
    ghost var ws := Weights(stakeLog, multiplier, players);
    totalWeight := 0.0;
    var i := 0;
    while i < |players|
      invariant 0 <= i <= |players|
      invariant forall j :: 0 <= j < i ==> players[j].stake > 0
      invariant totalWeight == Sum(ws[..i])
      invariant forall p :: p in players[..i] ==> p.totalWeight == Some(Weight(stakeLog, multiplier, p))
      invariant forall p :: p in players && p !in players[..i] ==> p.totalWeight == old(p.totalWeight)
      invariant forall p :: p in players ==>
        p.winningProbability == old(p.winningProbability) && p.winningAmount == old(p.winningAmount)
    {
      var player := players[i];
      if player.stake <= 0 {
        return Fail(LogDomainError), totalWeight;
      }
      var weight := AssignWeight(player, stakeLog, multiplier);
      assert weight == ws[i];
      totalWeight := totalWeight + weight;
      SumSnoc(ws, i);
      assert players[..i + 1] == players[..i] + [player];
      i := i + 1;
    }
    assert ws[..i] == ws;
    outcome := Pass;
  }

  /** The body of the first loop: `math.log` of the stake plus the streak times the multiplier. */
  method AssignWeight(player: Player, stakeLog: int -> real, multiplier: real) returns (weight: real)
    requires player.stake > 0
    modifies player
    ensures weight == Weight(stakeLog, multiplier, player) && player.totalWeight == Some(weight)
    ensures player.winningProbability == old(player.winningProbability)
    ensures player.winningAmount == old(player.winningAmount)
  {
    var stakeWeight := stakeLog(player.stake);
    var streakWeight := player.dailyStreak as real * multiplier;
    weight := stakeWeight + streakWeight;
    player.totalWeight := Some(weight);
  }

  /** The second loop of `calculate_probabilities`: "Winning Probability" of each player. */
  method AssignProbabilities(players: seq<Player>, totalWeight: real) returns (outcome: Outcome)
    requires forall p :: p in players ==> p.totalWeight.Some?
    modifies players
    ensures forall p :: p in players ==>
      p.totalWeight == old(p.totalWeight) && p.winningAmount == old(p.winningAmount)
    ensures outcome == Pass || outcome == Fail(DivisionByZeroError)
    ensures outcome == Fail(DivisionByZeroError) <==> |players| > 0 && totalWeight == 0.0
    ensures outcome == Pass && totalWeight != 0.0 ==> forall p :: p in players ==>
      p.winningProbability == Some(p.totalWeight.value / totalWeight)
    ensures outcome != Pass ==> forall p :: p in players ==> p.winningProbability == old(p.winningProbability)
  {
    var i := 0;
    while i < |players|
      invariant 0 <= i <= |players|
      invariant i > 0 ==> totalWeight != 0.0
      invariant forall p :: p in players ==>
        p.totalWeight == old(p.totalWeight) && p.winningAmount == old(p.winningAmount)
      invariant totalWeight != 0.0 ==> forall p :: p in players[..i] ==>
        p.winningProbability == Some(p.totalWeight.value / totalWeight)
      invariant forall p :: p in players && p !in players[..i] ==> p.winningProbability == old(p.winningProbability)
    {
      var player := players[i];
      if totalWeight == 0.0 {
        return Fail(DivisionByZeroError);
      }
      player.winningProbability := Some(player.totalWeight.value / totalWeight);
      assert players[..i + 1] == players[..i] + [player];
      i := i + 1;
    }
    assert players[..i] == players;
    outcome := Pass;
  }

  /** With stakes at the floor or above, streaks of a day or more and a non-negative multiplier, every weight is at least 1. */
  lemma WeightsAtLeastOne(stakeLog: int -> real, multiplier: real, players: seq<Player>)
    requires LogFloor(stakeLog) && multiplier >= 0.0
    requires forall i :: 0 <= i < |players| ==> players[i].stake >= MinStake && players[i].dailyStreak >= 1
    ensures forall i :: 0 <= i < |players| ==> Weights(stakeLog, multiplier, players)[i] >= 1.0
  {
    forall i | 0 <= i < |players|
      ensures Weights(stakeLog, multiplier, players)[i] >= 1.0
    {
      var p := players[i];
      assert p.dailyStreak as real * multiplier >= 0.0;
    }
  }

  /**
   * A population of generated records always gets through `calculate_probabilities`:
   * no stake reaches the logarithm's forbidden domain, and the total weight is positive
   * (at least the population size), so it is not zero.
   */
  lemma GeneratedPopulationIsWeighable(stakeLog: int -> real, multiplier: real, players: seq<Player>)
    requires LogFloor(stakeLog) && multiplier >= 0.0
    requires forall i :: 0 <= i < |players| ==> players[i].stake >= MinStake && players[i].dailyStreak >= 1
    ensures FirstNonPositiveStake(players) == |players|
    ensures Sum(Weights(stakeLog, multiplier, players)) >= |players| as real
  {
    var ws := Weights(stakeLog, multiplier, players);
    WeightsAtLeastOne(stakeLog, multiplier, players);
    SumAtLeastCount(ws);
  }

  /** The winning probabilities of a population sum to exactly 1. */
  lemma ProbabilitiesSumToOne(weights: seq<real>)
    requires Sum(weights) != 0.0
    ensures Sum(Ratios(weights, Sum(weights))) == 1.0
  {
    var total := Sum(weights);
    SumOfRatios(weights, total);
    DivideBySelf(total);
  }

  /** With positive weights, every winning probability lies in (0, 1]. */
  lemma ProbabilitiesInUnitInterval(weights: seq<real>)
    requires forall k :: 0 <= k < |weights| ==> weights[k] > 0.0
    requires |weights| > 0
    ensures Sum(weights) > 0.0
    ensures forall k :: 0 <= k < |weights| ==> 0.0 < Ratios(weights, Sum(weights))[k] <= 1.0
  {
    ElementAtMostSum(weights, 0);
    var total := Sum(weights);
    forall k | 0 <= k < |weights|
      ensures 0.0 < Ratios(weights, total)[k] <= 1.0
    {
      ElementAtMostSum(weights, k);
      RatioInUnitInterval(weights[k], total);
    }
  }
}
