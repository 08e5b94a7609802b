/**
 * Player records and `generate_players`.
 *
 * A player in the script is a dict created with the keys "User", "Stake" and
 * "Daily Streak"; later stages add "Total Weight", "Winning Probability" and
 * "Winning Amount" to the same dict in place. Here a player is an object: the
 * three keys set at creation are constants (nothing in the lottery rewrites
 * them), and each key added later is a mutable `Option<real>` that is `None`
 * while the dict does not yet hold that key.
 */
module Players {
  import opened Numeric
  import opened Naming

  /** The fixed minimum stake of the simulation. */
  const MinStake: int := 3

  /** The Python exceptions the core can raise. */
  datatype Error =
    | LogDomainError      // ValueError from math.log on a stake <= 0
    | DivisionByZeroError // ZeroDivisionError from dividing by a total weight of 0

  datatype Outcome = Pass | Fail(error: Error)

  datatype Result<T> = Success(value: T) | Failure(error: Error)

  /** A dict key that may not have been written yet. */
  datatype Option<T> = None | Some(value: T)

  class Player {
    const user: string
    const stake: int
    const dailyStreak: int
    var totalWeight: Option<real>
    var winningProbability: Option<real>
    var winningAmount: Option<real>

    /** A freshly generated record: only the three keys set at creation are present. */
    constructor (user: string, stake: int, dailyStreak: int)
      ensures this.user == user && this.stake == stake && this.dailyStreak == dailyStreak
      ensures totalWeight == None && winningProbability == None && winningAmount == None
    {
      this.user := user;
      this.stake := stake;
      this.dailyStreak := dailyStreak;
      totalWeight := None;
      winningProbability := None;
      winningAmount := None;
    }
  }

  /** `max(min_stake, int(x))`: a stake is never below the floor, and is the truncated draw when the draw reaches the floor. */
  function ClampedStake(minStake: int, draw: real): (stake: int)
    ensures stake >= minStake
    ensures draw >= minStake as real ==> stake == Trunc(draw)
    ensures draw >= minStake as real >= 0.0 ==> stake as real <= draw < stake as real + 1.0
    ensures minStake >= 0 && draw < minStake as real ==> stake == minStake
  {
    Max(minStake, Trunc(draw))
  }

  /** `max(1, int(y))`: a streak is at least one day, and is the truncated draw when the draw is at least 1. */
  function ClampedStreak(draw: real): (streak: int)
    ensures streak >= 1
    ensures draw >= 1.0 ==> streak == Trunc(draw) && streak as real <= draw < streak as real + 1.0
    ensures draw < 1.0 ==> streak == 1
  {
    Max(1, Trunc(draw))
  }

  /**
   * `generate_players`: one fresh record per pair of draws, in order. The
   * draws are the values `random.expovariate` returned for the stake and the
   * daily streak of each player.
   */
  method GeneratePlayers(numPlayers: nat, minStake: int, stakeDraws: seq<real>, streakDraws: seq<real>)
    returns (players: seq<Player>)
    requires |stakeDraws| == numPlayers && |streakDraws| == numPlayers
    ensures |players| == numPlayers
    ensures forall i :: 0 <= i < numPlayers ==>
      && fresh(players[i])
      && players[i].user == PlayerName(i + 1)
      && players[i].stake == ClampedStake(minStake, stakeDraws[i])
      && players[i].dailyStreak == ClampedStreak(streakDraws[i])
      && players[i].totalWeight == None
      && players[i].winningProbability == None
      && players[i].winningAmount == None
    ensures forall i, j :: 0 <= i < j < numPlayers ==> players[i] != players[j] && players[i].user != players[j].user
  {
    players := [];
    for i := 0 to numPlayers
      invariant |players| == i
      invariant forall k :: 0 <= k < i ==>
        && fresh(players[k])
        && players[k].user == PlayerName(k + 1)
        && players[k].stake == ClampedStake(minStake, stakeDraws[k])
        && players[k].dailyStreak == ClampedStreak(streakDraws[k])
        && players[k].totalWeight == None
        && players[k].winningProbability == None
        && players[k].winningAmount == None
      invariant forall k, l :: 0 <= k < l < i ==> players[k] != players[l]
    {
      var stake := ClampedStake(minStake, stakeDraws[i]);
      var dailyStreak := ClampedStreak(streakDraws[i]);
      var player := new Player(PlayerName(i + 1), stake, dailyStreak);
      players := players + [player];
    }
    forall i, j | 0 <= i < j < numPlayers
      ensures players[i].user != players[j].user
    {
      PlayerNameInjective(i + 1, j + 1);
    }
  }
}
