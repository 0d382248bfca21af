/**
 * The rock-paper-scissors mini-game's rule.  The computer's pick is random
 * in the game; here it is an input.
 */
module RockPaperScissors {

  datatype Choice = Rock | Paper | Scissors

  /** The three choices, in the order of the buttons. */
  const Choices: seq<Choice> := [Rock, Paper, Scissors]

  const TieResult: string := "It's a Tie!"
  const WinResult: string := "You Win!"
  const LoseResult: string := "You Lose!"

  /** The three winning pairs `determineResult` lists. */
  predicate Beats(user: Choice, computer: Choice) {
    || (user == Rock && computer == Scissors)
    || (user == Paper && computer == Rock)
    || (user == Scissors && computer == Paper)
  }

  /** determineResult: the text of the round's result. */
  function DetermineResult(user: Choice, computer: Choice): (result: string)
    ensures result == TieResult || result == WinResult || result == LoseResult
    ensures result == TieResult <==> user == computer
    ensures result == WinResult <==> Beats(user, computer)
  {
    if user == computer then TieResult
    else if Beats(user, computer) then WinResult
    else LoseResult
  }

  function Index(c: Choice): (i: nat)
    ensures i < |Choices| && Choices[i] == c
  {
    match c
    case Rock => 0
    case Paper => 1
    case Scissors => 2
  }

  /**
   * An independent statement of the rule: each choice beats the one just
   * before it in the cycle Rock, Paper, Scissors.
   */
  function CyclicResult(user: Choice, computer: Choice): string {
    var d := (Index(user) - Index(computer)) % 3;
    if d == 0 then TieResult else if d == 1 then WinResult else LoseResult
  }

  lemma DetermineResultIsCyclic(user: Choice, computer: Choice)
    ensures DetermineResult(user, computer) == CyclicResult(user, computer)
  {
  }

  /** The three outcomes are distinct texts, so they are mutually exclusive. */
  lemma OutcomesDistinct()
    ensures TieResult != WinResult && WinResult != LoseResult && TieResult != LoseResult
  {
    assert TieResult[0] != WinResult[0] && TieResult[0] != LoseResult[0];
    assert WinResult[4] != LoseResult[4];
  }

  /** Swapping the players turns a win into a loss and back. */
  lemma Antisymmetric(a: Choice, b: Choice)
    ensures DetermineResult(a, b) == WinResult <==> DetermineResult(b, a) == LoseResult
    ensures DetermineResult(a, b) == TieResult <==> DetermineResult(b, a) == TieResult
  {
    OutcomesDistinct();
  }

  /** Whatever the user picks, one computer pick ties, one loses to it and one beats it. */
  lemma OneOfEach(user: Choice)
    ensures multiset{DetermineResult(user, Rock), DetermineResult(user, Paper), DetermineResult(user, Scissors)}
         == multiset{TieResult, WinResult, LoseResult}
  {
  }
}
