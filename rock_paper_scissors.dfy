/**
 * Rock paper scissors scoring (day2/day2.cpp). The input is a flat list of
 * codes, an opponent's move followed by the second column of the strategy
 * guide, for every round. Part one reads the second column as the move to
 * play, part two as the outcome to reach; both score through constant tables.
 * Codes are 0, 1, 2 for A/X, B/Y, C/Z.
 */
module RockPaperScissors {

  /** A code of the input: 0 (A, X), 1 (B, Y) or 2 (C, Z). */
  type Code = x: int | 0 <= x < 3

  const Win := 6
  const Draw := 3
  const Loss := 0

  /** For a response move: the opponent move it beats, the one it draws with, its score. */
  datatype ResponseResult = ResponseResult(win: Code, draw: Code, score: int)

  /** `responseResults`: Rock beats Scissors, Paper beats Rock, Scissors beats Paper. */
  const ResponseResults: seq<ResponseResult> :=
    [ResponseResult(2, 0, 1), ResponseResult(0, 1, 2), ResponseResult(1, 2, 3)]

  /** For a desired outcome: the score of the move to play against each opponent move, and the outcome's score. */
  datatype Strategy = Strategy(responseScore: seq<int>, score: int)

  /** `strategies`, indexed by the outcome code: lose, draw, win. */
  const Strategies: seq<Strategy> :=
    [Strategy([3, 1, 2], Loss), Strategy([1, 2, 3], Draw), Strategy([2, 3, 1], Win)]

  /** Part one's score of a round, as the loop body computes it from the table. */
  function RoundOne(opponent: Code, response: Code): int {
    var player := ResponseResults[response];
    player.score + (if player.win == opponent then Win else 0) + (if player.draw == opponent then Draw else 0)
  }

  /** Part two's score of a round. */
  function RoundTwo(opponent: Code, outcome: Code): int {
    var strategy := Strategies[outcome];
    strategy.score + strategy.responseScore[opponent]
  }

  /**
   * The rules of the game, independent of the tables: each move beats the one
   * before it in the cycle Rock, Paper, Scissors.
   */
  function OutcomeScore(opponent: Code, response: Code): int {
    if response == opponent then Draw
    else if response == (opponent + 1) % 3 then Win
    else Loss
  }

  /** The move score: Rock 1, Paper 2, Scissors 3. */
  function MoveScore(move: Code): int {
    move + 1
  }

  /**
   * The part-one table follows the rules: a response never both wins and
   * draws, and the round scores its move plus 6, 3 or 0, between 1 and 9.
   */
  lemma RoundOneFollowsRules(opponent: Code, response: Code)
    ensures ResponseResults[response].win != ResponseResults[response].draw
    ensures RoundOne(opponent, response) == MoveScore(response) + OutcomeScore(opponent, response)
    ensures 1 <= RoundOne(opponent, response) <= 9
  {
  }

  /**
   * The part-two table names a real move, that move reaches the desired
   * outcome under part one's table, and the round scores the same either way.
   */
  lemma StrategyReachesOutcome(opponent: Code, outcome: Code)
    ensures 0 <= Strategies[outcome].responseScore[opponent] - 1 < 3
    ensures var move: Code := Strategies[outcome].responseScore[opponent] - 1;
      && OutcomeScore(opponent, move) == 3 * outcome
      && RoundOne(opponent, move) == RoundTwo(opponent, outcome)
  {
  }

  /** The move part two plays for a given opponent move and outcome. */
  function ChosenMove(opponent: Code, outcome: Code): Code {
    StrategyReachesOutcome(opponent, outcome);
    Strategies[outcome].responseScore[opponent] - 1
  }

  /**
   * Part one's running total once the loop has visited every round that ends
   * at or before index `hi` (the response sits at `hi`, the opponent at `hi - 1`).
   */
  function TotalOne(input: seq<Code>, hi: int): int
    requires hi < |input|
    decreases hi
  {
    if hi <= 0 then 0 else RoundOne(input[hi - 1], input[hi]) + TotalOne(input, hi - 2)
  }

  function TotalTwo(input: seq<Code>, hi: int): int
    requires hi < |input|
    decreases hi
  {
    if hi <= 0 then 0 else RoundTwo(input[hi - 1], input[hi]) + TotalTwo(input, hi - 2)
  }

  /** Part one: the loop walks the list from its end, two codes per round. */
  method PartOne(input: seq<Code>) returns (score: int)
    ensures score == TotalOne(input, |input| - 1)
  {
    var movesCount := |input| - 1;
    score := 0;
    while movesCount > 0
      invariant -1 <= movesCount < |input|
      invariant score + TotalOne(input, movesCount) == TotalOne(input, |input| - 1)
    {
      var player := ResponseResults[input[movesCount]];
      movesCount := movesCount - 1;
      var opponent := input[movesCount];
      movesCount := movesCount - 1;
      score := score + player.score + (if player.win == opponent then Win else 0)
        + (if player.draw == opponent then Draw else 0);
    }
  }

  /** Part two: the same walk, scoring through the strategy table. */
  method PartTwo(input: seq<Code>) returns (score: int)
    ensures score == TotalTwo(input, |input| - 1)
  {
    var movesCount := |input| - 1;
    score := 0;
    while movesCount > 0
      invariant -1 <= movesCount < |input|
      invariant score + TotalTwo(input, movesCount) == TotalTwo(input, |input| - 1)
    {
      var strategy := Strategies[input[movesCount]];
      movesCount := movesCount - 1;
      var responseScore := strategy.responseScore[input[movesCount]];
      movesCount := movesCount - 1;
      score := score + strategy.score + responseScore;
    }
  }

  /** Part one's score of the first `rounds` rounds in input order: opponent at 2i, response at 2i + 1. */
  function PairsOne(input: seq<Code>, rounds: nat): int
    requires 2 * rounds <= |input|
  {
    if rounds == 0 then 0
    else PairsOne(input, rounds - 1) + RoundOne(input[2 * rounds - 2], input[2 * rounds - 1])
  }

  /** Part two's score of the first `rounds` rounds in input order. */
  function PairsTwo(input: seq<Code>, rounds: nat): int
    requires 2 * rounds <= |input|
  {
    if rounds == 0 then 0
    else PairsTwo(input, rounds - 1) + RoundTwo(input[2 * rounds - 2], input[2 * rounds - 1])
  }

  /**
   * For an even number of codes the backward loop scores every pair
   * (input[2i], input[2i + 1]) exactly once.
   */
  lemma {:induction false} TotalOneVisitsEveryPair(input: seq<Code>, rounds: nat)
    requires 2 * rounds <= |input|
    ensures TotalOne(input, 2 * rounds - 1) == PairsOne(input, rounds)
  {
    if rounds > 0 {
      TotalOneVisitsEveryPair(input, rounds - 1);
    }
  }

  lemma {:induction false} TotalTwoVisitsEveryPair(input: seq<Code>, rounds: nat)
    requires 2 * rounds <= |input|
    ensures TotalTwo(input, 2 * rounds - 1) == PairsTwo(input, rounds)
  {
    if rounds > 0 {
      TotalTwoVisitsEveryPair(input, rounds - 1);
    }
  }

  /** The guide rewritten for part one: each outcome code replaced by the move part two plays. */
  function AsMoves(input: seq<Code>): (moves: seq<Code>)
    ensures |moves| == |input|
  {
    seq(|input|, i requires 0 <= i < |input| =>
      if i % 2 == 0 then input[i] else ChosenMove(input[i - 1], input[i]))
  }

  /** Round `m` of the rewritten guide keeps the opponent move and plays the chosen move. */
  lemma AsMovesRound(input: seq<Code>, m: nat)
    requires 2 * m + 1 < |input|
    ensures AsMoves(input)[2 * m] == input[2 * m]
    ensures AsMoves(input)[2 * m + 1] == ChosenMove(input[2 * m], input[2 * m + 1])
  {
    assert (2 * m) % 2 == 0 && (2 * m + 1) % 2 == 1;
  }

  /** Part two's total is part one's total of the rounds it actually plays. */
  lemma {:induction false} PartTwoPlaysPartOne(input: seq<Code>, rounds: nat)
    requires 2 * rounds <= |input|
    ensures PairsTwo(input, rounds) == PairsOne(AsMoves(input), rounds)
  {
    if rounds > 0 {
      PartTwoPlaysPartOne(input, rounds - 1);
      var m := rounds - 1;
      AsMovesRound(input, m);
      StrategyReachesOutcome(input[2 * m], input[2 * m + 1]);
    }
  }
}
