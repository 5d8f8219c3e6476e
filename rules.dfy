/** The round-adjudication rules of Pedra-Papel-Tesoura and of its five-option
    variant Pedra-Papel-Tesoura-Lagarto-Spock ("PPLS").

    As in the game, the two rules take the players' choices as strings, so they
    also define a result for strings that are not options; the lemmas below say
    what holds on the option tuples. */
module Rules {
  import opened Wrappers

  /** The result of one round. */
  datatype Outcome = Player1 | Player2 | Tie

  /** The result seen from the other seat. */
  function Mirror(r: Outcome): Outcome
  {
    match r
    case Player1 => Player2
    case Player2 => Player1
    case Tie => Tie
  }

  /** The valid choices of each variant, in the game's order. */
  const ClassicOptions: seq<string> := ["pedra", "papel", "tesoura"]
  const PplsOptions: seq<string> := ["pedra", "papel", "tesoura", "lagarto", "spock"]

  /** Classic table: the one choice each choice defeats. */
  const ClassicWins: map<string, string> :=
    map["pedra" := "tesoura", "tesoura" := "papel", "papel" := "pedra"]

  /** PPLS table: the two choices each choice defeats. */
  const PplsWins: map<string, seq<string>> :=
    map[
      "pedra" := ["lagarto", "tesoura"],
      "papel" := ["pedra", "spock"],
      "tesoura" := ["papel", "lagarto"],
      "lagarto" := ["papel", "spock"],
      "spock" := ["tesoura", "pedra"]
    ]

  /** Classic rule: a tie on equal choices; otherwise player 1 wins exactly
      when the table says player 1's choice defeats player 2's. A first choice
      absent from the table never wins. */
  function DetermineWinnerClassic(player1: string, player2: string): (r: Outcome)
    ensures r == Tie <==> player1 == player2
    ensures player1 != player2 && player1 !in ClassicWins ==> r == Player2
  {
    if player1 == player2 then Tie
    else if player1 in ClassicWins && ClassicWins[player1] == player2 then Player1
    else Player2
  }

  /** PPLS rule: as the classic one, with two defeated choices per entry; a
      first choice absent from the table defeats nothing. */
  function DetermineWinnerPpls(player1: string, player2: string): (r: Outcome)
    ensures r == Tie <==> player1 == player2
    ensures player1 != player2 && player1 !in PplsWins ==> r == Player2
  {
    if player1 == player2 then Tie
    else if player1 in PplsWins && player2 in PplsWins[player1] then Player1
    else Player2
  }

  // ---------------------------------------------------------------------------
  // The choices as values, and an independent reference definition of both
  // rules: the options sit on a cycle and a choice defeats those at an odd
  // distance behind it.
  // ---------------------------------------------------------------------------

  datatype Choice = Pedra | Papel | Tesoura | Lagarto | Spock

  predicate IsClassic(c: Choice)
  {
    c == Pedra || c == Papel || c == Tesoura
  }

  /** The token the game uses for a choice. */
  function Name(c: Choice): string
  {
    match c
    case Pedra => "pedra"
    case Papel => "papel"
    case Tesoura => "tesoura"
    case Lagarto => "lagarto"
    case Spock => "spock"
  }

  /** Reads a token back as a choice; anything that is not an option is None. */
  function Parse(s: string): (r: Option<Choice>)
    ensures r.Some? ==> Name(r.value) == s
  {
    if s == "pedra" then Some(Pedra)
    else if s == "papel" then Some(Papel)
    else if s == "tesoura" then Some(Tesoura)
    else if s == "lagarto" then Some(Lagarto)
    else if s == "spock" then Some(Spock)
    else None
  }

  /** Position on the cycle pedra, papel, tesoura, spock, lagarto. */
  function Position(c: Choice): int
  {
    match c
    case Pedra => 0
    case Papel => 1
    case Tesoura => 2
    case Spock => 3
    case Lagarto => 4
  }

  /** Five options: a defeats b when b lies 1 or 3 steps behind a. */
  predicate DefeatsOnCycle5(a: Choice, b: Choice)
  {
    var d := (Position(a) - Position(b)) % 5;
    d == 1 || d == 3
  }

  /** Three options: a defeats b when b lies 1 step behind a. */
  predicate DefeatsOnCycle3(a: Choice, b: Choice)
  {
    (Position(a) - Position(b)) % 3 == 1
  }

  function RefereePpls(a: Choice, b: Choice): Outcome
  {
    if a == b then Tie else if DefeatsOnCycle5(a, b) then Player1 else Player2
  }

  function RefereeClassic(a: Choice, b: Choice): Outcome
  {
    if a == b then Tie else if DefeatsOnCycle3(a, b) then Player1 else Player2
  }

  // ---------------------------------------------------------------------------
  // Choices and tokens
  // ---------------------------------------------------------------------------

  lemma ParseName(c: Choice)
    ensures Parse(Name(c)) == Some(c)
  {
  }

  /** A token names a choice exactly when it is a PPLS option, and a classic
      choice exactly when it is a classic option. */
  lemma ParseOptions(s: string)
    ensures Parse(s).Some? <==> s in PplsOptions
    ensures (Parse(s).Some? && IsClassic(Parse(s).value)) <==> s in ClassicOptions
  {
  }

  // ---------------------------------------------------------------------------
  // The tables agree with the cycle
  // ---------------------------------------------------------------------------

  lemma {:induction false} PplsMatchesCycle(a: Choice, b: Choice)
    ensures DetermineWinnerPpls(Name(a), Name(b)) == RefereePpls(a, b)
  {
    match a
    case Pedra =>
      assert PplsWins["pedra"] == ["lagarto", "tesoura"];
    case Papel =>
      assert PplsWins["papel"] == ["pedra", "spock"];
    case Tesoura =>
      assert PplsWins["tesoura"] == ["papel", "lagarto"];
    case Lagarto =>
      assert PplsWins["lagarto"] == ["papel", "spock"];
    case Spock =>
      assert PplsWins["spock"] == ["tesoura", "pedra"];
  }

  lemma {:induction false} ClassicMatchesCycle(a: Choice, b: Choice)
    requires IsClassic(a) && IsClassic(b)
    ensures DetermineWinnerClassic(Name(a), Name(b)) == RefereeClassic(a, b)
  {
  }

  /** The game's own matchups for the classic rule. */
  lemma ClassicMatchups()
    ensures DetermineWinnerClassic("pedra", "tesoura") == Player1
    ensures DetermineWinnerClassic("tesoura", "papel") == Player1
    ensures DetermineWinnerClassic("papel", "pedra") == Player1
    ensures DetermineWinnerClassic("tesoura", "pedra") == Player2
    ensures DetermineWinnerClassic("papel", "tesoura") == Player2
    ensures DetermineWinnerClassic("pedra", "papel") == Player2
  {
  }

  // ---------------------------------------------------------------------------
  // Antisymmetry
  // ---------------------------------------------------------------------------

  /** Swapping the seats mirrors the result of every classic pair of options;
      in particular player 1 wins (a, b) exactly when player 2 wins (b, a). */
  lemma {:induction false} ClassicAntisymmetric(a: string, b: string)
    requires a in ClassicOptions && b in ClassicOptions
    ensures DetermineWinnerClassic(b, a) == Mirror(DetermineWinnerClassic(a, b))
    ensures DetermineWinnerClassic(a, b) == Player1 <==> DetermineWinnerClassic(b, a) == Player2
  {
    ParseOptions(a);
    ParseOptions(b);
    var ca, cb := Parse(a).value, Parse(b).value;
    ClassicMatchesCycle(ca, cb);
    ClassicMatchesCycle(cb, ca);
  }

  lemma {:induction false} PplsAntisymmetric(a: string, b: string)
    requires a in PplsOptions && b in PplsOptions
    ensures DetermineWinnerPpls(b, a) == Mirror(DetermineWinnerPpls(a, b))
    ensures DetermineWinnerPpls(a, b) == Player1 <==> DetermineWinnerPpls(b, a) == Player2
  {
    ParseOptions(a);
    ParseOptions(b);
    var ca, cb := Parse(a).value, Parse(b).value;
    PplsMatchesCycle(ca, cb);
    PplsMatchesCycle(cb, ca);
  }

  /** Outside the options antisymmetry fails: two tokens absent from the
      classic table each lose when played first. */
  lemma AntisymmetryNeedsOptions()
    ensures DetermineWinnerClassic("lagarto", "spock") == Player2
    ensures DetermineWinnerClassic("spock", "lagarto") == Player2
  {
  }

  // ---------------------------------------------------------------------------
  // Balance: every PPLS option beats exactly two and loses to exactly two
  // ---------------------------------------------------------------------------

  /** How many of the opponents `o` gets the result `r` against under PPLS. */
  function CountPpls(o: string, opponents: seq<string>, r: Outcome): (n: nat)
    ensures n <= |opponents|
  {
    if opponents == [] then 0
    else Indicator(DetermineWinnerPpls(o, opponents[0]) == r) + CountPpls(o, opponents[1..], r)
  }

  function Indicator(b: bool): nat
  {
    if b then 1 else 0
  }

  /** CountPpls over the full option tuple, written out one opponent at a time. */
  lemma {:induction false} CountPplsOptions(o: string, r: Outcome)
    ensures CountPpls(o, PplsOptions, r)
         == Indicator(DetermineWinnerPpls(o, "pedra") == r)
          + Indicator(DetermineWinnerPpls(o, "papel") == r)
          + Indicator(DetermineWinnerPpls(o, "tesoura") == r)
          + Indicator(DetermineWinnerPpls(o, "lagarto") == r)
          + Indicator(DetermineWinnerPpls(o, "spock") == r)
  {
    var p4: seq<string> := ["spock"];
    var p3: seq<string> := ["lagarto"] + p4;
    var p2: seq<string> := ["tesoura"] + p3;
    var p1: seq<string> := ["papel"] + p2;
    assert PplsOptions == ["pedra"] + p1;
    assert p4[1..] == [];
    assert CountPpls(o, p4, r) == Indicator(DetermineWinnerPpls(o, "spock") == r);
    assert ([ "lagarto"] + p4)[1..] == p4;
    assert CountPpls(o, p3, r) == Indicator(DetermineWinnerPpls(o, "lagarto") == r) + CountPpls(o, p4, r);
    assert (["tesoura"] + p3)[1..] == p3;
    assert CountPpls(o, p2, r) == Indicator(DetermineWinnerPpls(o, "tesoura") == r) + CountPpls(o, p3, r);
    assert (["papel"] + p2)[1..] == p2;
    assert CountPpls(o, p1, r) == Indicator(DetermineWinnerPpls(o, "papel") == r) + CountPpls(o, p2, r);
    assert (["pedra"] + p1)[1..] == p1;
  }

  /** Number of the five choices against which `c` gets result `r`. */
  function RefereeCount(c: Choice, r: Outcome): nat
  {
    Indicator(RefereePpls(c, Pedra) == r)
    + Indicator(RefereePpls(c, Papel) == r)
    + Indicator(RefereePpls(c, Tesoura) == r)
    + Indicator(RefereePpls(c, Lagarto) == r)
    + Indicator(RefereePpls(c, Spock) == r)
  }

  lemma RefereeBalanced(c: Choice)
    ensures RefereeCount(c, Player1) == 2 && RefereeCount(c, Player2) == 2 && RefereeCount(c, Tie) == 1
  {
    match c
    case Pedra =>
    case Papel =>
    case Tesoura =>
    case Lagarto =>
    case Spock =>
  }

  /** The same count, read off the cycle. */
  lemma {:induction false} CountPplsOnCycle(c: Choice, r: Outcome)
    ensures CountPpls(Name(c), PplsOptions, r) == RefereeCount(c, r)
  {
    CountPplsOptions(Name(c), r);
    assert Name(Pedra) == "pedra" && Name(Papel) == "papel" && Name(Tesoura) == "tesoura";
    assert Name(Lagarto) == "lagarto" && Name(Spock) == "spock";
    PplsMatchesCycle(c, Pedra);
    PplsMatchesCycle(c, Papel);
    PplsMatchesCycle(c, Tesoura);
    PplsMatchesCycle(c, Lagarto);
    PplsMatchesCycle(c, Spock);
  }

  lemma {:induction false} PplsBalanced(o: string)
    requires o in PplsOptions
    ensures CountPpls(o, PplsOptions, Player1) == 2
    ensures CountPpls(o, PplsOptions, Player2) == 2
    ensures CountPpls(o, PplsOptions, Tie) == 1
  {
    ParseOptions(o);
    var c := Parse(o).value;
    assert o == Name(c);
    CountPplsOnCycle(c, Player1);
    CountPplsOnCycle(c, Player2);
    CountPplsOnCycle(c, Tie);
    RefereeBalanced(c);
  }

  // ---------------------------------------------------------------------------
  // PPLS extends the classic game
  // ---------------------------------------------------------------------------

  lemma {:induction false} PplsExtendsClassic(a: string, b: string)
    requires a in ClassicOptions && b in ClassicOptions
    ensures DetermineWinnerPpls(a, b) == DetermineWinnerClassic(a, b)
  {
    ParseOptions(a);
    ParseOptions(b);
    var ca, cb := Parse(a).value, Parse(b).value;
    PplsMatchesCycle(ca, cb);
    ClassicMatchesCycle(ca, cb);
  }

  // ---------------------------------------------------------------------------
  // The two variants, as the play functions pair options and rule
  // ---------------------------------------------------------------------------

  datatype Variant = Classic | Ppls

  /** The options tuple a play function offers: every entry names a choice,
      a classic one in the classic variant. */
  function Options(v: Variant): (r: seq<string>)
    ensures forall i :: 0 <= i < |r| ==> Parse(r[i]).Some?
    ensures v == Classic ==> forall i :: 0 <= i < |r| ==> IsClassic(Parse(r[i]).value)
  {
    match v
    case Classic => ClassicOptions
    case Ppls => PplsOptions
  }

  /** The rule a play function applies to a round: a tie exactly on equal
      choices, and on two of the variant's options the result the cycle gives. */
  function Winner(v: Variant, player1: string, player2: string): (r: Outcome)
    ensures r == Tie <==> player1 == player2
    ensures player1 in Options(v) && player2 in Options(v) ==>
              var a, b := Parse(player1).value, Parse(player2).value;
              r == if v == Classic then RefereeClassic(a, b) else RefereePpls(a, b)
  {
    RuleMatchesCycle(v, player1, player2);
    match v
    case Classic => DetermineWinnerClassic(player1, player2)
    case Ppls => DetermineWinnerPpls(player1, player2)
  }

  lemma {:induction false} RuleMatchesCycle(v: Variant, player1: string, player2: string)
    ensures player1 in Options(v) && player2 in Options(v) ==>
              var a, b := Parse(player1).value, Parse(player2).value;
              if v == Classic then DetermineWinnerClassic(player1, player2) == RefereeClassic(a, b)
              else DetermineWinnerPpls(player1, player2) == RefereePpls(a, b)
  {
    if player1 in Options(v) && player2 in Options(v) {
      ParseOptions(player1);
      ParseOptions(player2);
      var a, b := Parse(player1).value, Parse(player2).value;
      if v == Classic { ClassicMatchesCycle(a, b); } else { PplsMatchesCycle(a, b); }
    }
  }

  lemma WinnerAntisymmetric(v: Variant, a: string, b: string)
    requires a in Options(v) && b in Options(v)
    ensures Winner(v, b, a) == Mirror(Winner(v, a, b))
  {
    match v
    case Classic => ClassicAntisymmetric(a, b);
    case Ppls => PplsAntisymmetric(a, b);
  }
}
