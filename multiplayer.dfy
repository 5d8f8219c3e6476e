/** The local two-player match: each round adjudicates the two players'
    choices, a win adds one point to the winner's score and a tie adds nothing;
    when the players stop, the higher score wins the match. */
module Multiplayer {
  import opened Rules

  /** The two choices of one round, as accepted from the players. */
  datatype Round = Round(choice1: string, choice2: string)

  /** The standing of the match. */
  datatype Score = Score(score1: nat, score2: nat)

  /** How the match ends. */
  datatype Verdict = Player1Wins | Player2Wins | OverallTie

  /** The final comparison of the two scores: exactly one of the three
      verdicts, each for exactly its case. */
  function FinalVerdict(score1: nat, score2: nat): (v: Verdict)
    ensures v == Player1Wins <==> score1 > score2
    ensures v == Player2Wins <==> score2 > score1
    ensures v == OverallTie <==> score1 == score2
  {
    if score1 > score2 then Player1Wins
    else if score2 > score1 then Player2Wins
    else OverallTie
  }

  function MirrorVerdict(v: Verdict): Verdict
  {
    match v
    case Player1Wins => Player2Wins
    case Player2Wins => Player1Wins
    case OverallTie => OverallTie
  }

  // ---------------------------------------------------------------------------
  // Specification of the scoreboard: count the results
  // ---------------------------------------------------------------------------

  /** The result of every round, in order. */
  function Results(v: Variant, rounds: seq<Round>): seq<Outcome>
  {
    seq(|rounds|, i requires 0 <= i < |rounds| => Winner(v, rounds[i].choice1, rounds[i].choice2))
  }

  /** How many results equal `o`. */
  function Count(results: seq<Outcome>, o: Outcome): (n: nat)
    ensures n <= |results|
  {
    if results == [] then 0
    else Count(results[..|results| - 1], o) + (if results[|results| - 1] == o then 1 else 0)
  }

  /** Player 1 has one point per round won, player 2 likewise. */
  function Tally(results: seq<Outcome>): Score
  {
    Score(Count(results, Player1), Count(results, Player2))
  }

  // ---------------------------------------------------------------------------
  // The match loop
  // ---------------------------------------------------------------------------

  /** Plays the rounds in order, updating the two scores after each, and
      returns the final scores and verdict. */
  method PlayMatch(v: Variant, rounds: seq<Round>) returns (score1: nat, score2: nat, verdict: Verdict)
    ensures Score(score1, score2) == Tally(Results(v, rounds))
    ensures verdict == FinalVerdict(score1, score2)
  {
    score1, score2 := 0, 0;
    var i := 0;
    while i < |rounds|
      invariant 0 <= i <= |rounds|
      invariant Score(score1, score2) == Tally(Results(v, rounds[..i]))
    {
      var result := Winner(v, rounds[i].choice1, rounds[i].choice2);
      ghost var done := Results(v, rounds[..i + 1]);
      assert done[..i] == Results(v, rounds[..i]);
      assert done[i] == result;
      if result == Player1 {
        score1 := score1 + 1;
      } else if result == Player2 {
        score2 := score2 + 1;
      }
      i := i + 1;
    }
    assert rounds[..i] == rounds;
    verdict := FinalVerdict(score1, score2);
  }

  // ---------------------------------------------------------------------------
  // Properties of the scoreboard
  // ---------------------------------------------------------------------------

  /** One more round: a win for player 1 raises only player 1's score, a win
      for player 2 only player 2's, and a tie neither. */
  lemma {:induction false} TallyStep(results: seq<Outcome>, r: Outcome)
    ensures r == Player1 ==> Tally(results + [r]) == Score(Tally(results).score1 + 1, Tally(results).score2)
    ensures r == Player2 ==> Tally(results + [r]) == Score(Tally(results).score1, Tally(results).score2 + 1)
    ensures r == Tie ==> Tally(results + [r]) == Tally(results)
  {
    assert (results + [r])[..|results|] == results;
  }

  /** Every round is a win for one side or a tie. */
  lemma {:induction false} CountsPartition(results: seq<Outcome>)
    ensures Count(results, Player1) + Count(results, Player2) + Count(results, Tie) == |results|
  {
    if results != [] {
      CountsPartition(results[..|results| - 1]);
    }
  }

  lemma {:induction false} NoTieCounted(results: seq<Outcome>)
    ensures Count(results, Tie) == 0 <==> Tie !in results
  {
    if results != [] {
      var front := results[..|results| - 1];
      NoTieCounted(front);
      assert results == front + [results[|results| - 1]];
    }
  }

  /** After n rounds the two scores add up to at most n, and to exactly n
      when no round was tied. */
  lemma {:induction false} ScoresBoundedByRounds(results: seq<Outcome>)
    ensures Tally(results).score1 + Tally(results).score2 <= |results|
    ensures Tally(results).score1 + Tally(results).score2 == |results| <==> Tie !in results
  {
    CountsPartition(results);
    NoTieCounted(results);
  }

  // ---------------------------------------------------------------------------
  // Swapping the seats
  // ---------------------------------------------------------------------------

  /** The same rounds with the players in each other's seats. */
  function SwapSeats(rounds: seq<Round>): seq<Round>
  {
    seq(|rounds|, i requires 0 <= i < |rounds| => Round(rounds[i].choice2, rounds[i].choice1))
  }

  function MirrorAll(results: seq<Outcome>): seq<Outcome>
  {
    seq(|results|, i requires 0 <= i < |results| => Mirror(results[i]))
  }

  /** Every choice of every round is an option of the variant, as the input
      loop guarantees (AcceptedRoundKeepsValid). */
  predicate ValidRounds(v: Variant, rounds: seq<Round>)
  {
    forall i :: 0 <= i < |rounds| ==> rounds[i].choice1 in Options(v) && rounds[i].choice2 in Options(v)
  }

  /** Two choices that `get_player_choice` returned for the variant's options
      (GetPlayerChoice promises each is an element of them) extend valid rounds
      to valid rounds, so every match the game plays consists of valid rounds. */
  lemma {:induction false} AcceptedRoundKeepsValid(v: Variant, rounds: seq<Round>, c1: string, c2: string)
    requires ValidRounds(v, rounds)
    requires c1 in Options(v) && c2 in Options(v)
    ensures ValidRounds(v, rounds + [Round(c1, c2)])
  {
    var next := rounds + [Round(c1, c2)];
    assert forall i :: 0 <= i < |rounds| ==> next[i] == rounds[i];
  }

  lemma {:induction false} CountMirrored(results: seq<Outcome>, o: Outcome)
    ensures Count(MirrorAll(results), Mirror(o)) == Count(results, o)
  {
    if results != [] {
      var n := |results|;
      assert MirrorAll(results)[..n - 1] == MirrorAll(results[..n - 1]);
      CountMirrored(results[..n - 1], o);
    }
  }

  lemma {:induction false} SwappedResultsMirror(v: Variant, rounds: seq<Round>)
    requires ValidRounds(v, rounds)
    ensures Results(v, SwapSeats(rounds)) == MirrorAll(Results(v, rounds))
  {
    forall i | 0 <= i < |rounds|
      ensures Results(v, SwapSeats(rounds))[i] == MirrorAll(Results(v, rounds))[i]
    {
      WinnerAntisymmetric(v, rounds[i].choice1, rounds[i].choice2);
    }
  }

  /** Playing the same rounds from the other seats swaps the two final scores
      and mirrors the verdict. */
  lemma {:induction false} SwappedSeatsMirrorVerdict(v: Variant, rounds: seq<Round>)
    requires ValidRounds(v, rounds)
    ensures var s := Tally(Results(v, rounds));
            var t := Tally(Results(v, SwapSeats(rounds)));
            && t == Score(s.score2, s.score1)
            && FinalVerdict(t.score1, t.score2) == MirrorVerdict(FinalVerdict(s.score1, s.score2))
  {
    SwappedResultsMirror(v, rounds);
    CountMirrored(Results(v, rounds), Player1);
    CountMirrored(Results(v, rounds), Player2);
  }
}
