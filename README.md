# Pedra-Papel-Tesoura in Dafny

This project models the terminal game `jogo_pedra_papel_tesoura.py`. The game
is rock-paper-scissors (pedra, papel, tesoura) plus a five-option variant,
Pedra-Papel-Tesoura-Lagarto-Spock ("PPLS"). It can be played against the
computer or by two players at one keyboard. The model covers the parts of the
game that decide something:

- **Rules** (`rules.dfy`). The two adjudication functions are kept on strings,
  as in the game, with their lookup tables as Dafny maps. A small `Choice`
  datatype and a reference *cycle* definition sit beside them. On the cycle
  pedra, papel, tesoura, spock, lagarto, a choice beats the choices 1 or 3
  steps behind it; in the classic game it beats the choice 1 step behind it.
  The lemmas prove that:
  - the tables agree with the cycle;
  - a round ties exactly on equal choices;
  - swapping the seats mirrors the result;
  - every PPLS option beats exactly two options and loses to exactly two;
  - PPLS restricted to the classic options is the classic game;
  - a first choice missing from the table always loses to a different
    second choice (equal choices still tie).
- **Reading the players** (`player_input.dfy`). Each typed line is stripped
  with the exact whitespace set of Python's `str.isspace`, then lowercased. It
  is then accepted as a choice or as a yes/no answer, or rejected, which means
  a new prompt. The prompting loops are methods over the sequence of lines a
  player types. When that sequence runs out, the input has ended. Lemmas prove
  that normalising is idempotent, that surrounding whitespace and letter case
  are ignored, and that an accepted choice is always a normalised element of
  the options.
- **The two-player match** (`multiplayer.dfy`). A loop scores each round: a win
  adds one point to the winner, a tie adds nothing. The final verdict compares
  the two scores. The loop is proved against a counting specification. Lemmas
  prove that:
  - a round raises only its winner's score;
  - the two scores add up to at most the number of rounds, with equality
    exactly when no round tied;
  - replaying a match from the other seats swaps the scores and mirrors the
    verdict.

`wrappers.dfy` holds the `Option` datatype.

The repository also holds a separate task-manager application under
`Gerenciador de Tarefas/`. It is not part of this model.

## Model

| member | source | states |
|---|---|---|
| Rules.DetermineWinnerClassic | jogo_pedra_papel_tesoura.py:90-119 | the result is a tie exactly when the two choices are equal; a first choice absent from the table (any non-option string) loses to every different second choice |
| Rules.DetermineWinnerPpls | jogo_pedra_papel_tesoura.py:126-159 | the same two facts for the PPLS table, whose missing entries default to an empty tuple |
| Rules.Parse | jogo_pedra_papel_tesoura.py:45-46 | a token read back as a choice names that choice |
| Rules.ParseName | jogo_pedra_papel_tesoura.py:41-42 | reading back a choice's token gives the choice |
| Rules.ParseOptions | jogo_pedra_papel_tesoura.py:41-42 | a token is a choice exactly when it is in the PPLS options tuple, and a classic choice exactly when it is in the classic tuple |
| Rules.PplsMatchesCycle | jogo_pedra_papel_tesoura.py:150-159 | for every pair of choices, the PPLS table gives the same result as the five-step cycle |
| Rules.ClassicMatchesCycle | jogo_pedra_papel_tesoura.py:113-119 | for every pair of classic choices, the classic table gives the same result as the three-step cycle |
| Rules.ClassicMatchups | jogo_pedra_papel_tesoura.py:93-96 | pedra beats tesoura, tesoura beats papel, papel beats pedra, and each reversed pair is a win for player 2 |
| Rules.ClassicAntisymmetric | jogo_pedra_papel_tesoura.py:110-119 | for classic options, swapping the choices mirrors the result, so player 1 wins (a, b) exactly when player 2 wins (b, a) |
| Rules.PplsAntisymmetric | jogo_pedra_papel_tesoura.py:147-159 | the same for every pair of PPLS options |
| Rules.AntisymmetryNeedsOptions | jogo_pedra_papel_tesoura.py:119 | outside the options antisymmetry fails: "lagarto" and "spock" in the classic rule each lose when played first |
| Rules.CountPplsOnCycle | jogo_pedra_papel_tesoura.py:150-157 | counting one option's results against the five options gives the same count as the cycle |
| Rules.RefereeBalanced | jogo_pedra_papel_tesoura.py:150 | on the five-step cycle every choice beats two choices, loses to two and ties with itself |
| Rules.PplsBalanced | jogo_pedra_papel_tesoura.py:150-157 | every PPLS option beats exactly two of the five options, loses to exactly two and ties only with itself |
| Rules.PplsExtendsClassic | jogo_pedra_papel_tesoura.py:113-117 | on the classic options the PPLS rule and the classic rule give the same result |
| Rules.Options | jogo_pedra_papel_tesoura.py:330 | the options a play function offers (the classic tuple here, the PPLS tuple at line 393) each name a choice, and in the classic variant a classic one |
| Rules.Winner | jogo_pedra_papel_tesoura.py:346 | the rule a play function applies (the PPLS rule at line 406) ties exactly on equal choices and, on two options of its variant, gives the cycle's result |
| Rules.WinnerAntisymmetric | jogo_pedra_papel_tesoura.py:346 | for either variant, as a play function pairs options and rule, swapping the seats mirrors the result of any pair of that variant's options |
| PlayerInput.AcceptChoice | jogo_pedra_papel_tesoura.py:181-183 | a normalised answer is accepted exactly when it is one of the options, and what is accepted is the answer itself |
| PlayerInput.ClassifyYesNo | jogo_pedra_papel_tesoura.py:209-214 | "s" and "sim" mean yes, "n", "nao" and "não" mean no, and every other answer is rejected |
| PlayerInput.GetPlayerChoice | jogo_pedra_papel_tesoura.py:166-184 | returns the first response whose normalised form is an option, with its position, after rejecting every earlier one; the returned value is an option; None only when every response was rejected |
| PlayerInput.GetYesNo | jogo_pedra_papel_tesoura.py:199-214 | returns the meaning of the first response that is a yes or no word, after rejecting every earlier one; None only when every response was rejected |
| PlayerInput.GetComputerChoice | jogo_pedra_papel_tesoura.py:187-196 | the computer's move is an element of the options |
| PlayerInput.Strip | jogo_pedra_papel_tesoura.py:181 | `strip()` returns nothing longer than the response and leaves no whitespace at either end |
| PlayerInput.Lower | jogo_pedra_papel_tesoura.py:181 | `lower()` keeps the length, lowering character by character (LowerAt) |
| PlayerInput.Normalize | jogo_pedra_papel_tesoura.py:181 | the normal form of a response, as `get_player_choice` and `get_yes_no` (line 209) both compute it, is no longer than the response and has no whitespace at either end |
| PlayerInput.StripLeftSpec | jogo_pedra_papel_tesoura.py:181 | stripping the front keeps a suffix that is empty or starts with a non-space and drops only whitespace |
| PlayerInput.StripRightSpec | jogo_pedra_papel_tesoura.py:181 | stripping the back keeps a prefix that is empty or ends with a non-space and drops only whitespace |
| PlayerInput.StripSpec | jogo_pedra_papel_tesoura.py:181 | `strip()` keeps a contiguous piece with only whitespace around it and no whitespace at its ends |
| PlayerInput.NormalizeIdempotent | jogo_pedra_papel_tesoura.py:181 | stripping and lowercasing a second time changes nothing |
| PlayerInput.NormalizeIgnoresPadding | jogo_pedra_papel_tesoura.py:181 | whitespace before and after a response does not change its normal form |
| PlayerInput.NormalizeIgnoresCase | jogo_pedra_papel_tesoura.py:181 | responses that lowercase alike have the same normal form |
| PlayerInput.LowerIdempotent | jogo_pedra_papel_tesoura.py:209 | lowercasing twice is lowercasing once |
| PlayerInput.WordsAreNormal | jogo_pedra_papel_tesoura.py:41-42 | every option and every yes/no word is its own normal form |
| PlayerInput.PaddedOptionAccepted | jogo_pedra_papel_tesoura.py:182-183 | an option typed with surrounding whitespace is accepted as that option, in either variant |
| PlayerInput.AcceptedIsNormal | jogo_pedra_papel_tesoura.py:183 | an accepted choice is an element of the options and already in normal form |
| PlayerInput.ExampleNo | jogo_pedra_papel_tesoura.py:209-213 | a capitalised "NÃO" is read as no |
| Multiplayer.FinalVerdict | jogo_pedra_papel_tesoura.py:365-370 | player 1 wins exactly when score1 > score2, player 2 exactly when score2 > score1, and the match is an overall tie exactly when they are equal |
| Multiplayer.PlayMatch | jogo_pedra_papel_tesoura.py:312-370 | after the rounds the two scores are the numbers of rounds each player won, and the verdict is the final comparison of those scores |
| Multiplayer.TallyStep | jogo_pedra_papel_tesoura.py:353-357 | a round won by player 1 raises only score1, one won by player 2 raises only score2, and a tie changes neither |
| Multiplayer.CountsPartition | jogo_pedra_papel_tesoura.py:354-357 | wins for player 1, wins for player 2 and ties add up to the number of rounds |
| Multiplayer.NoTieCounted | jogo_pedra_papel_tesoura.py:413-416 | no tie is counted exactly when no round tied |
| Multiplayer.ScoresBoundedByRounds | jogo_pedra_papel_tesoura.py:319-357 | after n rounds score1 + score2 <= n, with equality exactly when no round tied |
| Multiplayer.AcceptedRoundKeepsValid | jogo_pedra_papel_tesoura.py:327-342 | a round of two choices read by `get_player_choice` against the variant's options keeps the rounds valid, which the seat-swapping lemmas require |
| Multiplayer.CountMirrored | jogo_pedra_papel_tesoura.py:413-416 | mirroring every result turns player 1's wins into player 2's and the reverse |
| Multiplayer.SwappedResultsMirror | jogo_pedra_papel_tesoura.py:346 | replaying valid rounds with the seats swapped mirrors every round's result |
| Multiplayer.SwappedSeatsMirrorVerdict | jogo_pedra_papel_tesoura.py:413-429 | replaying valid rounds with the seats swapped swaps the two final scores and mirrors the final verdict |

`Multiplayer.PlayMatch` stands for both `play_multiplayer_classic` (lines
312-370) and `play_multiplayer_ppls` (lines 373-429). They differ only in the
options tuple and the rule, and the `Variant` parameter selects those.

## Left out

- Terminal output and screen handling are not modelled, because they only
  produce side effects: `clear_screen`, `print_divider`, `print_header`,
  `display_round_classic`, `display_ppls_rules`, `show_info`.
- The menu loop `main_menu` is not modelled. It only dispatches to the play
  functions and catches end of input. In `GetPlayerChoice` and `GetYesNo`,
  end of input is the `None` result.
- `play_vs_computer_classic` and `play_vs_computer_ppls` are not modelled as
  loops. They keep no score, and each round is a `GetComputerChoice` followed
  by the rule, both of which are modelled.
- Player names are not modelled. The defaults "Jogador 1" and "Jogador 2"
  appear only in messages.
- The `GameMode` and `GameVariant` enums are not modelled, because nothing
  uses them. The model's `Variant` only pairs an options tuple with its rule.
- PlayerInput.GetComputerChoice: does not model the uniform randomness of
  `random.choice`. It says only that the move is one of the options. It
  requires non-empty options, because `random.choice` raises on an empty
  tuple and the game always passes a non-empty one.
- PlayerInput.LowerChar: lowercases ASCII capitals, Latin-1 capitals and the
  Kelvin sign only, not all of Python's Unicode `str.lower`. Apart from A-Z,
  the Kelvin sign and Ã, the one character that lowercases to a letter of an
  option or a yes/no word is U+0130 (capital I with dot above). Python turns
  it into "i" followed by the combining dot U+0307, and no option or word
  contains U+0307. So the accept/reject decision is unaffected, while the
  normalised text of other scripts can differ.
- Multiplayer.PlayMatch: also accepts an empty list of rounds, giving 0-0 and
  an overall tie. The game always plays at least one round before asking
  "Proxima rodada". The yes/no answers between rounds are modelled by the
  length of the list of rounds.
