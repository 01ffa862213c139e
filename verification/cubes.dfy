/** The cube game of `2/2.js` on draws that are already split into
    `<count> <color>` pairs: the limits check behind `possibleGames`, the
    running per-colour maximum of `getMinCubes`, the power of a game and
    the sums over games. The text scanning that produces the pairs is in
    module `CubeText`. */
module Cubes {
  import opened Wrappers

  /** One `<count> <color>` pair of a draw. */
  datatype Pair = Pair(count: nat, color: string)

  /** The pairs of one draw, in text order. */
  type Draw = seq<Pair>

  /** A game as the puzzle states it: its id and its draws. */
  datatype Game = Game(id: nat, draws: seq<Draw>)

  /** The `cubeCount` map: how many cubes of each colour the bag holds. */
  function Limit(color: string): Option<nat> {
    if color == "red" then Some(12)
    else if color == "green" then Some(13)
    else if color == "blue" then Some(14)
    else None
  }

  predicate KnownColor(color: string) {
    color == "red" || color == "green" || color == "blue"
  }

  // ---------------------------------------------------------------------
  // Which draws and games are possible

  /** `cubeCount.get(color) < number`: the pair needs more cubes than the
      bag holds. A colour without a limit compares `undefined < number`,
      which is false. */
  predicate TooMany(p: Pair) {
    Limit(p.color).Some? && Limit(p.color).value < p.count
  }

  /** A draw the bag can produce: no pair asks for more cubes than there are. */
  predicate DrawFits(d: Draw) {
    forall i :: 0 <= i < |d| ==> !TooMany(d[i])
  }

  /** What `checkCombo` returns: `true`, `false` for a pair with too many
      cubes, or `undefined` when the scan stops before the end of the text
      without finding another pair. Only `Fits` is truthy. */
  datatype Verdict = Fits | Exceeds | Stuck

  /** `checkCombo` on the pairs its scan finds: the first pair with too many
      cubes decides `false`; otherwise the draw fits when the scan reached
      the end of the text (`complete`) and is left undecided when it did not. */
  function CheckPairs(d: Draw, complete: bool): Verdict
    decreases |d|
  {
    if |d| == 0 then (if complete then Fits else Stuck)
    else if TooMany(d[0]) then Exceeds
    else CheckPairs(d[1..], complete)
  }

  /** The `forEach` of `possibleGames` over the verdicts of a game's draws:
      once `possible` is false no further draw is looked at. */
  function PossibleAfter(verdicts: seq<Verdict>, possible: bool): bool
    decreases |verdicts|
  {
    if |verdicts| == 0 then possible
    else if !possible then PossibleAfter(verdicts[1..], possible)
    else PossibleAfter(verdicts[1..], verdicts[0] == Fits)
  }

  function Verdicts(draws: seq<Draw>): (vs: seq<Verdict>)
    ensures |vs| == |draws|
    ensures forall i :: 0 <= i < |draws| ==> vs[i] == CheckPairs(draws[i], true)
  {
    if |draws| == 0 then [] else [CheckPairs(draws[0], true)] + Verdicts(draws[1..])
  }

  /** The game is kept by `possibleGames`. */
  predicate GamePossible(draws: seq<Draw>) {
    PossibleAfter(Verdicts(draws), true)
  }

  /** A draw is rejected exactly when some pair needs more cubes than the
      limit of its colour; a count equal to the limit is accepted. */
  lemma {:induction false} CheckPairsExactly(d: Draw, complete: bool)
    ensures CheckPairs(d, complete) == Exceeds <==> exists i :: 0 <= i < |d| && TooMany(d[i])
    ensures CheckPairs(d, complete) == Fits <==> complete && DrawFits(d)
    ensures CheckPairs(d, complete) == Stuck <==> !complete && DrawFits(d)
    decreases |d|
  {
    if |d| > 0 {
      CheckPairsExactly(d[1..], complete);
      if !TooMany(d[0]) {
        if exists i :: 0 <= i < |d| && TooMany(d[i]) {
          var i :| 0 <= i < |d| && TooMany(d[i]);
          assert d[1..][i - 1] == d[i];
        }
        if DrawFits(d[1..]) {
          forall i | 0 <= i < |d| ensures !TooMany(d[i]) {
            if i > 0 {
              assert d[i] == d[1..][i - 1];
            }
          }
        }
      }
    }
  }

  /** A pair asks for too many cubes exactly when its count is strictly
      above the limit; colours other than red, green and blue never do. */
  lemma TooManyExactly(p: Pair)
    ensures TooMany(p) <==> KnownColor(p.color) && p.count > Limit(p.color).value
    ensures !KnownColor(p.color) ==> !TooMany(p)
    ensures p == Pair(12, "red") || p == Pair(13, "green") || p == Pair(14, "blue") ==> !TooMany(p)
    ensures p == Pair(13, "red") || p == Pair(14, "green") || p == Pair(15, "blue") ==> TooMany(p)
  {
  }

  /** `possible` stays true exactly while every verdict is `true`. */
  lemma {:induction false} PossibleAfterExactly(verdicts: seq<Verdict>, possible: bool)
    ensures PossibleAfter(verdicts, possible) <==> possible && forall i :: 0 <= i < |verdicts| ==> verdicts[i] == Fits
    decreases |verdicts|
  {
    if |verdicts| > 0 {
      PossibleAfterExactly(verdicts[1..], if !possible then possible else verdicts[0] == Fits);
      if possible && verdicts[0] == Fits && PossibleAfter(verdicts, possible) {
        forall i | 0 <= i < |verdicts| ensures verdicts[i] == Fits {
          if i > 0 {
            assert verdicts[i] == verdicts[1..][i - 1];
          }
        }
      }
    }
  }

  /** A game is kept exactly when every one of its draws fits. */
  lemma GamePossibleExactly(draws: seq<Draw>)
    ensures GamePossible(draws) <==> forall i :: 0 <= i < |draws| ==> DrawFits(draws[i])
  {
    var vs := Verdicts(draws);
    PossibleAfterExactly(vs, true);
    forall i | 0 <= i < |draws| ensures vs[i] == Fits <==> DrawFits(draws[i]) {
      CheckPairsExactly(draws[i], true);
    }
  }

  /** Once one draw fails, no later draw makes the game possible again. */
  lemma {:induction false} ImpossibleStays(before: seq<Verdict>, after: seq<Verdict>)
    requires !PossibleAfter(before, true)
    ensures !PossibleAfter(before + after, true)
  {
    PossibleAfterExactly(before, true);
    PossibleAfterExactly(before + after, true);
    var i :| 0 <= i < |before| && before[i] != Fits;
    assert (before + after)[i] == before[i];
  }

  // ---------------------------------------------------------------------
  // The fewest cubes of each colour

  /** The `minCubesMap` of `sumOfAllPowers`, whose keys are inserted in the
      order blue, red, green. */
  datatype CubeSet = CubeSet(blue: nat, red: nat, green: nat)

  /** The map as created for each game: every colour at 0. */
  const NoCubes: CubeSet := CubeSet(0, 0, 0)

  /** `minCubesMap.get(color)`; `None` is `undefined`. */
  function Get(m: CubeSet, color: string): (r: Option<nat>)
    ensures r.Some? <==> KnownColor(color)
  {
    if color == "blue" then Some(m.blue)
    else if color == "red" then Some(m.red)
    else if color == "green" then Some(m.green)
    else None
  }

  /** One step of `getMinCubes`: a count above the colour's entry replaces
      it; `undefined < n` is false, so other colours are ignored. */
  function Raise(m: CubeSet, p: Pair): CubeSet {
    if Get(m, p.color).Some? && Get(m, p.color).value < p.count then
      if p.color == "blue" then m.(blue := p.count)
      else if p.color == "red" then m.(red := p.count)
      else m.(green := p.count)
    else m
  }

  /** `getMinCubes` on the pairs of one draw, in text order. */
  function RaiseAll(m: CubeSet, d: Draw): CubeSet
    decreases |d|
  {
    if |d| == 0 then m else RaiseAll(Raise(m, d[0]), d[1..])
  }

  /** The `forEach` of `sumOfAllPowers` over the draws of a game. */
  function RaiseDraws(m: CubeSet, draws: seq<Draw>): CubeSet
    decreases |draws|
  {
    if |draws| == 0 then m else RaiseDraws(RaiseAll(m, draws[0]), draws[1..])
  }

  /** The fewest cubes of each colour that make every draw of the game possible. */
  function MinCubes(draws: seq<Draw>): CubeSet {
    RaiseDraws(NoCubes, draws)
  }

  function Max(a: nat, b: nat): nat {
    if a < b then b else a
  }

  /** The largest count of `color` among the pairs, 0 if the colour is absent. */
  function MaxCount(ps: Draw, color: string): nat
    decreases |ps|
  {
    if |ps| == 0 then 0
    else Max(if ps[0].color == color then ps[0].count else 0, MaxCount(ps[1..], color))
  }

  /** All pairs of all draws. */
  function Flatten(draws: seq<Draw>): Draw
    decreases |draws|
  {
    if |draws| == 0 then [] else draws[0] + Flatten(draws[1..])
  }

  /** `MaxCount` is the least upper bound of the counts of the colour. */
  lemma {:induction false} MaxCountBounds(ps: Draw, color: string)
    ensures forall i :: 0 <= i < |ps| && ps[i].color == color ==> ps[i].count <= MaxCount(ps, color)
    ensures MaxCount(ps, color) == 0 || exists i :: 0 <= i < |ps| && ps[i].color == color && ps[i].count == MaxCount(ps, color)
    decreases |ps|
  {
    if |ps| > 0 {
      MaxCountBounds(ps[1..], color);
      forall i | 1 <= i < |ps| && ps[i].color == color ensures ps[i].count <= MaxCount(ps, color) {
        assert ps[i] == ps[1..][i - 1];
      }
      if MaxCount(ps, color) != 0 && MaxCount(ps, color) == MaxCount(ps[1..], color) {
        var i :| 0 <= i < |ps[1..]| && ps[1..][i].color == color && ps[1..][i].count == MaxCount(ps, color);
        assert ps[i + 1] == ps[1..][i];
      }
    }
  }

  /** The maximum depends only on which pairs occur, not on their order or
      how often they repeat. */
  lemma MaxCountOfSamePairs(ps: Draw, qs: Draw, color: string)
    requires forall p :: p in ps <==> p in qs
    ensures MaxCount(ps, color) == MaxCount(qs, color)
  {
    MaxCountBounds(ps, color);
    MaxCountBounds(qs, color);
    var a, b := MaxCount(ps, color), MaxCount(qs, color);
    if a != 0 {
      var i :| 0 <= i < |ps| && ps[i].color == color && ps[i].count == a;
      assert ps[i] in qs;
      var j :| 0 <= j < |qs| && qs[j] == ps[i];
    }
    if b != 0 {
      var j :| 0 <= j < |qs| && qs[j].color == color && qs[j].count == b;
      assert qs[j] in ps;
      var i :| 0 <= i < |ps| && ps[i] == qs[j];
    }
  }

  lemma {:induction false} MaxCountAppend(a: Draw, b: Draw, color: string)
    ensures MaxCount(a + b, color) == Max(MaxCount(a, color), MaxCount(b, color))
    decreases |a|
  {
    if |a| == 0 {
      assert a + b == b;
    } else {
      assert (a + b)[0] == a[0] && (a + b)[1..] == a[1..] + b;
      MaxCountAppend(a[1..], b, color);
    }
  }

  /** A step never lowers an entry, raises the pair's own colour to at
      least its count, and leaves every other entry alone. */
  lemma RaiseIsMax(m: CubeSet, p: Pair, color: string)
    requires KnownColor(color)
    ensures Get(Raise(m, p), color).value
         == Max(Get(m, color).value, if p.color == color then p.count else 0)
  {
  }

  /** A pair whose colour is not in the map leaves the map unchanged. */
  lemma RaiseIgnoresUnknown(m: CubeSet, p: Pair)
    requires !KnownColor(p.color)
    ensures Raise(m, p) == m
  {
  }

  /** After `getMinCubes` on a draw, each colour's entry is the maximum of
      its prior value and every count of that colour in the draw. */
  lemma {:induction false} RaiseAllIsMax(m: CubeSet, d: Draw, color: string)
    requires KnownColor(color)
    ensures Get(RaiseAll(m, d), color).value == Max(Get(m, color).value, MaxCount(d, color))
    decreases |d|
  {
    if |d| > 0 {
      RaiseIsMax(m, d[0], color);
      RaiseAllIsMax(Raise(m, d[0]), d[1..], color);
    }
  }

  /** Entries never decrease. */
  lemma RaiseAllMonotone(m: CubeSet, d: Draw)
    ensures RaiseAll(m, d).blue >= m.blue && RaiseAll(m, d).red >= m.red && RaiseAll(m, d).green >= m.green
  {
    RaiseAllIsMax(m, d, "blue");
    RaiseAllIsMax(m, d, "red");
    RaiseAllIsMax(m, d, "green");
  }

  lemma {:induction false} RaiseDrawsIsMax(m: CubeSet, draws: seq<Draw>, color: string)
    requires KnownColor(color)
    ensures Get(RaiseDraws(m, draws), color).value == Max(Get(m, color).value, MaxCount(Flatten(draws), color))
    decreases |draws|
  {
    if |draws| > 0 {
      RaiseAllIsMax(m, draws[0], color);
      RaiseDrawsIsMax(RaiseAll(m, draws[0]), draws[1..], color);
      MaxCountAppend(draws[0], Flatten(draws[1..]), color);
    }
  }

  /** Each entry of a game's minimum cube set is the largest count of that
      colour anywhere in the game, 0 when the colour never appears. */
  lemma MinCubesIsMax(draws: seq<Draw>, color: string)
    requires KnownColor(color)
    ensures Get(MinCubes(draws), color) == Some(MaxCount(Flatten(draws), color))
  {
    RaiseDrawsIsMax(NoCubes, draws, color);
  }

  /** The minimum cube set does not depend on the order of the draws or of
      the pairs inside them: only on which pairs occur. */
  lemma MinCubesOrderFree(a: seq<Draw>, b: seq<Draw>)
    requires forall p :: p in Flatten(a) <==> p in Flatten(b)
    ensures MinCubes(a) == MinCubes(b)
  {
    forall color | KnownColor(color) ensures Get(MinCubes(a), color) == Get(MinCubes(b), color) {
      MinCubesIsMax(a, color);
      MinCubesIsMax(b, color);
      MaxCountOfSamePairs(Flatten(a), Flatten(b), color);
    }
    assert Get(MinCubes(a), "blue") == Get(MinCubes(b), "blue");
    assert Get(MinCubes(a), "red") == Get(MinCubes(b), "red");
    assert Get(MinCubes(a), "green") == Get(MinCubes(b), "green");
  }

  // ---------------------------------------------------------------------
  // Power and sums

  /** `[...minCubesMap.values()].reduce((acc, cur) => acc * cur, 1)`. */
  function Power(m: CubeSet): nat {
    1 * m.blue * m.red * m.green
  }

  /** A game's power is the product of the largest red, green and blue counts. */
  lemma PowerOfMaxima(draws: seq<Draw>)
    ensures Power(MinCubes(draws))
         == MaxCount(Flatten(draws), "red") * MaxCount(Flatten(draws), "green") * MaxCount(Flatten(draws), "blue")
  {
    var m, ps := MinCubes(draws), Flatten(draws);
    MinCubesIsMax(draws, "red");
    MinCubesIsMax(draws, "green");
    MinCubesIsMax(draws, "blue");
    assert m.red == MaxCount(ps, "red") && m.green == MaxCount(ps, "green") && m.blue == MaxCount(ps, "blue");
    ProductRotate(m.blue, m.red, m.green);
  }

  lemma ProductRotate(a: nat, b: nat, c: nat)
    ensures 1 * a * b * c == b * c * a
  {
    assert a * b * c == a * (b * c);
  }

  /** Some pair of the game shows at least one cube of the colour. */
  predicate Shows(draws: seq<Draw>, color: string) {
    exists i :: 0 <= i < |Flatten(draws)| && Flatten(draws)[i].color == color && Flatten(draws)[i].count > 0
  }

  /** The power is 0 exactly when one of the three colours is never shown. */
  lemma PowerZeroExactly(draws: seq<Draw>)
    ensures Power(MinCubes(draws)) == 0 <==> !Shows(draws, "red") || !Shows(draws, "green") || !Shows(draws, "blue")
  {
    var m := MinCubes(draws);
    forall color | KnownColor(color) ensures Get(m, color).value == 0 <==> !Shows(draws, color) {
      MinCubesIsMax(draws, color);
      MaxCountBounds(Flatten(draws), color);
    }
    assert m.blue == 0 <==> !Shows(draws, "blue");
    assert m.red == 0 <==> !Shows(draws, "red");
    assert m.green == 0 <==> !Shows(draws, "green");
    ProductZero(m.blue, m.red, m.green);
  }

  lemma ProductZero(a: nat, b: nat, c: nat)
    ensures 1 * a * b * c == 0 <==> a == 0 || b == 0 || c == 0
  {
    if a > 0 && b > 0 && c > 0 {
      assert a * b > 0;
      assert a * b * c > 0;
    }
  }

  /** The `reduce` of `sumOfAllPowers`: the powers added up from `acc` on. */
  function SumPowersFrom(acc: nat, games: seq<seq<Draw>>): nat
    decreases |games|
  {
    if |games| == 0 then acc else SumPowersFrom(acc + Power(MinCubes(games[0])), games[1..])
  }

  function SumPowers(games: seq<seq<Draw>>): nat {
    SumPowersFrom(0, games)
  }

  lemma {:induction false} SumPowersFromShift(acc: nat, games: seq<seq<Draw>>)
    ensures SumPowersFrom(acc, games) == acc + SumPowers(games)
    decreases |games|
  {
    if |games| > 0 {
      var p := Power(MinCubes(games[0]));
      SumPowersFromShift(acc + p, games[1..]);
      SumPowersFromShift(p, games[1..]);
    }
  }

  lemma SumPowersCons(draws: seq<Draw>, games: seq<seq<Draw>>)
    ensures SumPowers([draws] + games) == Power(MinCubes(draws)) + SumPowers(games)
  {
    assert ([draws] + games)[0] == draws && ([draws] + games)[1..] == games;
    SumPowersFromShift(Power(MinCubes(draws)), games);
  }

  /** The sum over two lists of games is the sum of their sums. */
  lemma {:induction false} SumPowersAppend(a: seq<seq<Draw>>, b: seq<seq<Draw>>)
    ensures SumPowers(a + b) == SumPowers(a) + SumPowers(b)
    decreases |a|
  {
    if |a| == 0 {
      assert a + b == b;
    } else {
      var p := Power(MinCubes(a[0]));
      assert (a + b)[0] == a[0] && (a + b)[1..] == a[1..] + b;
      SumPowersFromShift(p, a[1..] + b);
      SumPowersAppend(a[1..], b);
      SumPowersFromShift(p, a[1..]);
    }
  }

  /** The ids of the possible games, in order. */
  function PossibleIds(games: seq<Game>): (ids: seq<nat>)
    decreases |games|
  {
    if |games| == 0 then []
    else (if GamePossible(games[0].draws) then [games[0].id] else []) + PossibleIds(games[1..])
  }

  lemma PossibleIdsCons(g: Game, games: seq<Game>)
    ensures PossibleIds([g] + games) == (if GamePossible(g.draws) then [g.id] else []) + PossibleIds(games)
  {
    assert ([g] + games)[0] == g && ([g] + games)[1..] == games;
  }

  /** An id is listed exactly when some game with that id is possible. */
  lemma {:induction false} PossibleIdsExactly(games: seq<Game>, id: nat)
    ensures id in PossibleIds(games) <==> exists i :: 0 <= i < |games| && games[i].id == id && GamePossible(games[i].draws)
    decreases |games|
  {
    if |games| > 0 {
      PossibleIdsExactly(games[1..], id);
      if exists i :: 0 <= i < |games| && games[i].id == id && GamePossible(games[i].draws) {
        var i :| 0 <= i < |games| && games[i].id == id && GamePossible(games[i].draws);
        if i > 0 {
          assert games[1..][i - 1] == games[i];
        }
      }
      if id in PossibleIds(games[1..]) {
        var i :| 0 <= i < |games[1..]| && games[1..][i].id == id && GamePossible(games[1..][i].draws);
        assert games[i + 1] == games[1..][i];
      }
    }
  }
}
