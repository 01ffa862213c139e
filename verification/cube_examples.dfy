/** The worked example of the cube puzzle: five games, read both as pairs
    and as the text the renderer writes for them. */
module CubeExamples {
  import opened Wrappers
  import opened Strings
  import opened Cubes
  import opened CubeText

  /** `Game 1: 3 blue, 4 red; 1 red, 2 green, 6 blue; 2 green` */
  const Game1: seq<Draw> := [
    [Pair(3, "blue"), Pair(4, "red")],
    [Pair(1, "red"), Pair(2, "green"), Pair(6, "blue")],
    [Pair(2, "green")]]

  /** `Game 2: 1 blue, 2 green; 3 green, 4 blue, 1 red; 1 green, 1 blue` */
  const Game2: seq<Draw> := [
    [Pair(1, "blue"), Pair(2, "green")],
    [Pair(3, "green"), Pair(4, "blue"), Pair(1, "red")],
    [Pair(1, "green"), Pair(1, "blue")]]

  /** `Game 3: 8 green, 6 blue, 20 red; 5 blue, 4 red, 13 green; 5 green, 1 red` */
  const Game3: seq<Draw> := [
    [Pair(8, "green"), Pair(6, "blue"), Pair(20, "red")],
    [Pair(5, "blue"), Pair(4, "red"), Pair(13, "green")],
    [Pair(5, "green"), Pair(1, "red")]]

  /** `Game 4: 1 green, 3 red, 6 blue; 3 green, 6 red; 3 green, 15 blue, 14 red` */
  const Game4: seq<Draw> := [
    [Pair(1, "green"), Pair(3, "red"), Pair(6, "blue")],
    [Pair(3, "green"), Pair(6, "red")],
    [Pair(3, "green"), Pair(15, "blue"), Pair(14, "red")]]

  /** `Game 5: 6 red, 1 blue, 3 green; 2 blue, 1 red, 2 green` */
  const Game5: seq<Draw> := [
    [Pair(6, "red"), Pair(1, "blue"), Pair(3, "green")],
    [Pair(2, "blue"), Pair(1, "red"), Pair(2, "green")]]

  const Games: seq<Game> := [Game(1, Game1), Game(2, Game2), Game(3, Game3), Game(4, Game4), Game(5, Game5)]

  /** The fewest cubes for the first game are 4 red, 2 green and 6 blue. */
  lemma FirstGameMinimum()
    ensures GamePossible(Game1)
    ensures MinCubes(Game1) == CubeSet(6, 4, 2)
    ensures Power(MinCubes(Game1)) == 48
  {
  }

  lemma SecondGame()
    ensures GamePossible(Game2) && Power(MinCubes(Game2)) == 12
  {
  }

  /** Twenty red cubes are more than the bag holds. */
  lemma ThirdGame()
    ensures !GamePossible(Game3) && Power(MinCubes(Game3)) == 1560
  {
  }

  /** Fifteen blue cubes are more than the bag holds. */
  lemma FourthGame()
    ensures !GamePossible(Game4) && Power(MinCubes(Game4)) == 630
  {
  }

  lemma FifthGame()
    ensures GamePossible(Game5) && Power(MinCubes(Game5)) == 36
  {
  }

  /** Games 3 and 4 each hold a draw the bag cannot produce. */
  lemma PossibleGamesOfExample()
    ensures PossibleIds(Games) == [1, 2, 5]
    ensures Sum(PossibleIds(Games)) == 8
  {
    FirstGameMinimum();
    SecondGame();
    ThirdGame();
    FourthGame();
    FifthGame();
    PossibleOfFive(Game(1, Game1), Game(2, Game2), Game(3, Game3), Game(4, Game4), Game(5, Game5));
    IdsAddUp();
  }

  lemma IdsAddUp()
    ensures Sum([1, 2, 5]) == 8
  {
    assert Sum([5]) == 5 && Sum([2, 5]) == 7;
  }

  lemma PossibleOfFive(a: Game, b: Game, c: Game, d: Game, e: Game)
    requires GamePossible(a.draws) && GamePossible(b.draws) && !GamePossible(c.draws)
    requires !GamePossible(d.draws) && GamePossible(e.draws)
    ensures PossibleIds([a, b, c, d, e]) == [a.id, b.id, e.id]
  {
    PossibleIdsCons(e, []);
    PossibleIdsCons(d, [e]);
    PossibleIdsCons(c, [d, e]);
    PossibleIdsCons(b, [c, d, e]);
    PossibleIdsCons(a, [b, c, d, e]);
    assert [a] + [b, c, d, e] == [a, b, c, d, e];
    assert [b] + [c, d, e] == [b, c, d, e];
    assert [c] + [d, e] == [c, d, e];
    assert [d] + [e] == [d, e];
    assert [e] + [] == [e];
  }

  /** The powers are 48, 12, 1560, 630 and 36. */
  lemma PowerSumOfExample()
    ensures SumPowers(DrawsOf(Games)) == 2286
  {
    FirstGameMinimum();
    SecondGame();
    ThirdGame();
    FourthGame();
    FifthGame();
    DrawsOfExample();
    SumOfFive(Game1, Game2, Game3, Game4, Game5);
  }

  lemma DrawsOfExample()
    ensures DrawsOf(Games) == [Game1, Game2, Game3, Game4, Game5]
  {
  }

  lemma SumOfFive(a: seq<Draw>, b: seq<Draw>, c: seq<Draw>, d: seq<Draw>, e: seq<Draw>)
    ensures SumPowers([a, b, c, d, e])
         == Power(MinCubes(a)) + Power(MinCubes(b)) + Power(MinCubes(c)) + Power(MinCubes(d)) + Power(MinCubes(e))
  {
    SumPowersCons(a, [b, c, d, e]);
    SumPowersCons(b, [c, d, e]);
    SumPowersCons(c, [d, e]);
    SumPowersCons(d, [e]);
    SumPowersCons(e, []);
    assert [a] + [b, c, d, e] == [a, b, c, d, e];
    assert [b] + [c, d, e] == [b, c, d, e];
    assert [c] + [d, e] == [c, d, e];
    assert [d] + [e] == [d, e];
    assert [e] + [] == [e];
  }

  lemma ExampleWellFormed()
    ensures forall i :: 0 <= i < |Games| ==> WellFormedGame(Games[i])
  {
    KnownColorsWellFormed(Games[0]);
    KnownColorsWellFormed(Games[1]);
    KnownColorsWellFormed(Games[2]);
    KnownColorsWellFormed(Games[3]);
    KnownColorsWellFormed(Games[4]);
  }

  /** A game with at least one draw whose colours are all red, green or blue
      can be rendered and read back. */
  lemma KnownColorsWellFormed(g: Game)
    requires |g.draws| > 0
    requires forall i, j :: 0 <= i < |g.draws| && 0 <= j < |g.draws[i]| ==> KnownColor(g.draws[i][j].color)
    ensures WellFormedGame(g)
  {
    assert IsColorWord("red") && IsColorWord("green") && IsColorWord("blue");
  }

  /** The same answers read from the text of the five games. */
  lemma ExampleFileRead()
    ensures PossibleGames(Lines(RenderFile(Games))) == Some(["1", "2", "5"])
    ensures Program(RenderFile(Games)) == Some(2286)
  {
    ExampleWellFormed();
    PossibleGamesOfExample();
    PowerSumOfExample();
    FileOfGames(Games, [1, 2, 5], 2286);
    IdTexts();
  }

  lemma IdTexts()
    ensures DecimalIds([1, 2, 5]) == ["1", "2", "5"]
  {
  }

  lemma FileOfGames(games: seq<Game>, ids: seq<nat>, total: nat)
    requires |games| > 0 && forall i :: 0 <= i < |games| ==> WellFormedGame(games[i])
    requires PossibleIds(games) == ids && SumPowers(DrawsOf(games)) == total
    ensures PossibleGames(Lines(RenderFile(games))) == Some(DecimalIds(ids))
    ensures Program(RenderFile(games)) == Some(total)
  {
    RenderedFileRead(games);
  }

  /** A line ending in `\r`: the last draw of the first game fits, yet
      `checkCombo` leaves it undecided and `getMinCubes` throws. */
  lemma CarriageReturnExample()
    ensures CheckFrom(RenderDraw(Game1[2]) + "\r") == Stuck
    ensures MinCubesScan(RenderDraw(Game1[2]) + "\r", NoCubes).None?
  {
    KnownColorsWellFormed(Game(1, Game1));
    assert Next("\r").None?;
    TrailingTextUndecided(Game1[2], "\r", NoCubes);
  }
}
