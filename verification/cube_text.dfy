/** The text side of `2/2.js`: the `/(?<number>\d+) (?<color>\w+)/g`
    scans of `checkCombo` and `getMinCubes`, the split of a line into its
    game header and draws, the two passes over the lines, and a renderer
    for well-formed games whose output the passes read back exactly.

    A global regular expression resumes each `exec` at `lastIndex`, and the
    pattern has no anchor or look-behind, so whether it matches at a
    position depends only on the text from there on. The scans are
    therefore modelled on the remaining suffix: `lastIndex >= combo.length`
    is "the suffix is empty", and the leftmost match at or after
    `lastIndex` is the leftmost match in the suffix. */
module CubeText {
  import opened Wrappers
  import opened Strings
  import opened Cubes

  /** The `\w` class: ASCII letters, digits and the underscore. */
  predicate IsWordChar(c: char) {
    'a' <= c <= 'z' || 'A' <= c <= 'Z' || IsDigit(c) || c == '_'
  }

  /** The length of the run of digits that starts the text. */
  function DigitRun(t: string): (n: nat)
    ensures n <= |t|
    ensures forall i :: 0 <= i < n ==> IsDigit(t[i])
    ensures n < |t| ==> !IsDigit(t[n])
    decreases |t|
  {
    if |t| == 0 || !IsDigit(t[0]) then 0 else 1 + DigitRun(t[1..])
  }

  /** The length of the run of word characters that starts the text. */
  function WordRun(t: string): (n: nat)
    ensures n <= |t|
    ensures forall i :: 0 <= i < n ==> IsWordChar(t[i])
    ensures n < |t| ==> !IsWordChar(t[n])
    decreases |t|
  {
    if |t| == 0 || !IsWordChar(t[0]) then 0 else 1 + WordRun(t[1..])
  }

  /** A colour as the pattern's `(?<color>\w+)` group can capture it. */
  predicate IsColorWord(color: string) {
    |color| > 0 && forall i :: 0 <= i < |color| ==> IsWordChar(color[i])
  }

  /** A match of the pattern: the pair it captures and the text after it. */
  datatype Match = Match(pair: Pair, rest: string)

  /** The match that starts at the head of the text, if any. `\d+` must take
      the whole digit run (a shorter one would be followed by a digit, not a
      space) and `\w+` is greedy. The captured number is compared and stored
      as its decimal value. */
  function Lead(t: string): (r: Option<Match>)
    ensures r.Some? ==> |r.value.rest| < |t|
  {
    var d := DigitRun(t);
    if 0 < d && d + 1 < |t| && t[d] == ' ' && IsWordChar(t[d + 1]) then
      assert forall i :: 0 <= i < d ==> t[..d][i] == t[i];
      Some(Capture(t[..d], t[d + 1..]))
    else None
  }

  /** The match once the digits and the space are read: the colour is the
      run of word characters after the space. */
  function Capture(digits: string, after: string): (m: Match)
    requires AllDigits(digits)
    ensures |m.rest| <= |after|
  {
    var w := WordRun(after);
    Match(Pair(ParseDecimal(digits), after[..w]), after[w..])
  }

  /** `regex.exec` from the head of the text: the leftmost match. */
  function Next(t: string): (r: Option<Match>)
    ensures r.Some? ==> |r.value.rest| < |t|
    decreases |t|
  {
    if |t| == 0 then None
    else if Lead(t).Some? then Lead(t)
    else Next(t[1..])
  }

  /** The pairs a scan of the text finds, and whether it reached the end of
      the text (`complete`) or stopped at a tail holding no further match. */
  datatype Scan = Scan(pairs: Draw, complete: bool)

  function Tokens(t: string): Scan
    decreases |t|
  {
    if |t| == 0 then Scan([], true)
    else match Next(t)
      case None => Scan([], false)
      case Some(m) =>
        var s := Tokens(m.rest);
        Scan([m.pair] + s.pairs, s.complete)
  }

  /** `checkCombo` from the current `lastIndex`: the end of the text answers
      `true`; a failed `exec` leaves `undefined < undefined`, which is false,
      resets `lastIndex` to 0 and so falls off the end of the function with
      `undefined`; a pair with too many cubes answers `false`; any other
      match leaves `lastIndex` positive and the scan goes on. The
      `combo.split(",")` handed to `exec` is converted back to the same text. */
  function CheckFrom(t: string): Verdict
    decreases |t|
  {
    if |t| == 0 then Fits
    else match Next(t)
      case None => Stuck
      case Some(m) => if TooMany(m.pair) then Exceeds else CheckFrom(m.rest)
  }

  /** `getMinCubes` from the current `lastIndex`. A failed `exec` makes the
      destructuring of `undefined` throw a `TypeError`, modelled as `None`. */
  function MinCubesScan(t: string, m: CubeSet): Option<CubeSet>
    decreases |t|
  {
    if |t| == 0 then Some(m)
    else match Next(t)
      case None => None
      case Some(x) => MinCubesScan(x.rest, Raise(m, x.pair))
  }

  // ---------------------------------------------------------------------
  // The scanner

  /** `Lead` finds exactly the decomposition digits, space, colour, rest. */
  lemma LeadOf(digits: string, color: string, rest: string)
    requires |digits| > 0 && AllDigits(digits) && IsColorWord(color)
    requires |rest| == 0 || !IsWordChar(rest[0])
    ensures Lead(digits + " " + color + rest) == Some(Match(Pair(ParseDecimal(digits), color), rest))
  {
    Assoc4(digits, " ", color, rest);
    LeadSplits(digits, color + rest);
    CaptureOf(digits, color, rest);
  }

  /** Digits, a space and a word character: `Lead` captures from there. */
  lemma LeadSplits(digits: string, after: string)
    requires |digits| > 0 && AllDigits(digits)
    requires |after| > 0 && IsWordChar(after[0])
    ensures Lead(digits + ([' '] + after)) == Some(Capture(digits, after))
  {
    var t := digits + ([' '] + after);
    var d := |digits|;
    DigitRunOf(digits, [' '] + after);
    assert t[d] == ' ' && t[d + 1] == after[0];
    assert t[..d] == digits && t[d + 1..] == after;
  }

  lemma CaptureOf(digits: string, color: string, rest: string)
    requires AllDigits(digits) && IsColorWord(color)
    requires |rest| == 0 || !IsWordChar(rest[0])
    ensures Capture(digits, color + rest) == Match(Pair(ParseDecimal(digits), color), rest)
  {
    var after := color + rest;
    WordRunOf(color, rest);
    assert after[..|color|] == color && after[|color|..] == rest;
  }

  lemma Assoc4<T>(a: seq<T>, b: seq<T>, c: seq<T>, d: seq<T>)
    ensures a + b + c + d == a + (b + (c + d))
  {
  }

  lemma DigitRunOf(x: string, y: string)
    requires AllDigits(x) && (|y| == 0 || !IsDigit(y[0]))
    ensures DigitRun(x + y) == |x|
  {
    if |y| > 0 {
      assert (x + y)[|x|] == y[0];
    }
    assert forall i :: 0 <= i < |x| ==> (x + y)[i] == x[i];
  }

  lemma WordRunOf(x: string, y: string)
    requires forall i :: 0 <= i < |x| ==> IsWordChar(x[i])
    requires |y| == 0 || !IsWordChar(y[0])
    ensures WordRun(x + y) == |x|
  {
    if |y| > 0 {
      assert (x + y)[|x|] == y[0];
    }
    assert forall i :: 0 <= i < |x| ==> (x + y)[i] == x[i];
  }

  /** Whatever `Lead` captures has that decomposition. */
  lemma LeadShape(t: string)
    requires Lead(t).Some?
    ensures exists digits ::
              |digits| > 0 && AllDigits(digits) && ParseDecimal(digits) == Lead(t).value.pair.count
              && t == digits + " " + Lead(t).value.pair.color + Lead(t).value.rest
    ensures IsColorWord(Lead(t).value.pair.color)
    ensures |Lead(t).value.rest| == 0 || !IsWordChar(Lead(t).value.rest[0])
  {
    var d := LeadIsCapture(t);
    var digits, after := t[..d], t[d + 1..];
    var m := Capture(digits, after);
    CaptureShape(digits, after);
    Assoc4(digits, " ", m.pair.color, m.rest);
  }

  /** A match at the head: a digit run, a space, and a capture after them. */
  lemma LeadIsCapture(t: string) returns (d: nat)
    requires Lead(t).Some?
    ensures 0 < d < |t| && AllDigits(t[..d])
    ensures t == t[..d] + ([' '] + t[d + 1..])
    ensures |t[d + 1..]| > 0 && IsWordChar(t[d + 1..][0])
    ensures Lead(t) == Some(Capture(t[..d], t[d + 1..]))
  {
    d := DigitRun(t);
    assert forall i :: 0 <= i < d ==> t[..d][i] == t[i];
    assert [' '] + t[d + 1..] == t[d..];
  }

  /** The colour is a word, the rest does not go on with one, and together
      they are the text after the space. */
  lemma CaptureShape(digits: string, after: string)
    requires AllDigits(digits) && |after| > 0 && IsWordChar(after[0])
    ensures Capture(digits, after).pair.count == ParseDecimal(digits)
    ensures after == Capture(digits, after).pair.color + Capture(digits, after).rest
    ensures IsColorWord(Capture(digits, after).pair.color)
    ensures |Capture(digits, after).rest| == 0 || !IsWordChar(Capture(digits, after).rest[0])
  {
    var w := WordRun(after);
    assert after[..w] + after[w..] == after;
    forall i | 0 <= i < w ensures IsWordChar(after[..w][i]) {
      assert after[..w][i] == after[i];
    }
    if w < |after| {
      assert after[w..][0] == after[w];
    }
  }

  /** `Next` is the leftmost match: none before it, and no match at all
      exactly when no position starts one. */
  lemma NextIsLeftmost(t: string)
    ensures Next(t).None? <==> forall i :: 0 <= i < |t| ==> Lead(t[i..]).None?
    ensures Next(t).Some? ==>
              exists i :: 0 <= i < |t| && Lead(t[i..]) == Next(t) && forall j :: 0 <= j < i ==> Lead(t[j..]).None?
  {
    NextNoneExactly(t);
    if Next(t).Some? {
      var i := LeftmostIndex(t);
    }
  }

  lemma {:induction false} NextNoneExactly(t: string)
    ensures Next(t).None? <==> forall i :: 0 <= i < |t| ==> Lead(t[i..]).None?
    decreases |t|
  {
    if |t| > 0 {
      assert t[0..] == t;
      if Lead(t).None? {
        NextNoneExactly(t[1..]);
        forall i | 1 <= i < |t| ensures t[1..][i - 1..] == t[i..] {
        }
      }
    }
  }

  lemma {:induction false} LeftmostIndex(t: string) returns (i: nat)
    requires Next(t).Some?
    ensures i < |t| && Lead(t[i..]) == Next(t)
    ensures forall j :: 0 <= j < i ==> Lead(t[j..]).None?
    decreases |t|
  {
    assert t[0..] == t;
    if Lead(t).Some? {
      i := 0;
    } else {
      var k := LeftmostIndex(t[1..]);
      i := k + 1;
      assert t[1..][k..] == t[i..];
      forall j | 0 <= j < i ensures Lead(t[j..]).None? {
        if j > 0 {
          assert t[1..][j - 1..] == t[j..];
        }
      }
    }
  }

  /** A character no match can start at is skipped. */
  lemma NextSkips(c: char, t: string)
    requires !IsDigit(c)
    ensures Next([c] + t) == Next(t)
  {
    assert ([c] + t)[1..] == t;
  }

  /** `checkCombo` decides on the pairs its scan finds: `false` at the first
      pair with too many cubes, otherwise `true` if the scan reached the
      end of the text and `undefined` if it stopped short. */
  lemma {:induction false} CheckFromTokens(t: string)
    ensures CheckFrom(t) == CheckPairs(Tokens(t).pairs, Tokens(t).complete)
    decreases |t|
  {
    if |t| > 0 && Next(t).Some? {
      var m := Next(t).value;
      CheckFromTokens(m.rest);
      var s := Tokens(m.rest);
      assert ([m.pair] + s.pairs)[1..] == s.pairs;
    }
  }

  /** `getMinCubes` raises the map by the pairs its scan finds, and throws
      exactly when the scan stops short of the end of the text. */
  lemma {:induction false} MinCubesScanTokens(t: string, m: CubeSet)
    ensures MinCubesScan(t, m) == if Tokens(t).complete then Some(RaiseAll(m, Tokens(t).pairs)) else None
    decreases |t|
  {
    if |t| > 0 && Next(t).Some? {
      var x := Next(t).value;
      MinCubesScanTokens(x.rest, Raise(m, x.pair));
      var s := Tokens(x.rest);
      assert ([x.pair] + s.pairs)[1..] == s.pairs;
    }
  }

  /** The two scans agree on which texts they read to the end: `getMinCubes`
      throws on every draw for which `checkCombo` can return `undefined`. */
  lemma StuckThrows(t: string, m: CubeSet)
    ensures CheckFrom(t) == Stuck ==> MinCubesScan(t, m).None?
    ensures MinCubesScan(t, m).None? ==> CheckFrom(t) != Fits
  {
    CheckFromTokens(t);
    MinCubesScanTokens(t, m);
    CheckPairsExactly(Tokens(t).pairs, Tokens(t).complete);
  }

  // ---------------------------------------------------------------------
  // Lines

  /** `s.match(/\d+/)[0]`: the leftmost maximal run of digits; `None` is the
      `TypeError` of indexing the `null` of a text without digits. */
  function FirstDigitRun(s: string): (r: Option<string>)
    ensures r.Some? ==> |r.value| > 0 && AllDigits(r.value)
    decreases |s|
  {
    if |s| == 0 then None
    else if IsDigit(s[0]) then
      assert forall i :: 0 <= i < DigitRun(s) ==> s[..DigitRun(s)][i] == s[i];
      Some(s[..DigitRun(s)])
    else FirstDigitRun(s[1..])
  }

  /** `r` is the maximal run of digits at `i`, and no digit comes before it. */
  predicate FirstRunAt(s: string, r: string, i: nat) {
    OccursAt(s, r, i)
    && (forall j :: 0 <= j < i ==> !IsDigit(s[j]))
    && (i + |r| == |s| || !IsDigit(s[i + |r|]))
  }

  /** `FirstDigitRun` fails exactly on texts without digits. */
  lemma {:induction false} FirstDigitRunNone(s: string)
    ensures FirstDigitRun(s).None? <==> forall i :: 0 <= i < |s| ==> !IsDigit(s[i])
    decreases |s|
  {
    if |s| > 0 && !IsDigit(s[0]) {
      FirstDigitRunNone(s[1..]);
      assert forall i :: 1 <= i < |s| ==> s[1..][i - 1] == s[i];
    }
  }

  /** `FirstDigitRun` finds the first digit and the whole run it begins. */
  lemma {:induction false} FirstDigitRunFound(s: string)
    requires FirstDigitRun(s).Some?
    ensures exists i: nat :: FirstRunAt(s, FirstDigitRun(s).value, i)
    decreases |s|
  {
    var r := FirstDigitRun(s).value;
    if IsDigit(s[0]) {
      assert FirstRunAt(s, r, 0);
    } else {
      FirstDigitRunFound(s[1..]);
      var i: nat :| FirstRunAt(s[1..], r, i);
      FirstRunShift(s, r, i);
    }
  }

  lemma FirstRunShift(s: string, r: string, i: nat)
    requires |s| > 0 && !IsDigit(s[0]) && FirstRunAt(s[1..], r, i)
    ensures FirstRunAt(s, r, i + 1)
  {
    assert s[1..][i..i + |r|] == s[i + 1..i + 1 + |r|];
    forall j | 0 <= j < i + 1 ensures !IsDigit(s[j]) {
      if j > 0 {
        assert s[j] == s[1..][j - 1];
      }
    }
    if i + |r| < |s[1..]| {
      assert s[1..][i + |r|] == s[i + 1 + |r|];
    }
  }

  lemma {:induction false} FirstDigitRunSkips(x: string, y: string)
    requires forall i :: 0 <= i < |x| ==> !IsDigit(x[i])
    ensures FirstDigitRun(x + y) == FirstDigitRun(y)
    decreases |x|
  {
    if |x| > 0 {
      assert (x + y)[0] == x[0] && (x + y)[1..] == x[1..] + y;
      FirstDigitRunSkips(x[1..], y);
    } else {
      assert x + y == y;
    }
  }

  /** A game line: its id text and the texts of its draws. */
  datatype LineParts = LineParts(id: string, combos: seq<string>)

  /** `const [game, ...draws] = line.split(":")`, the id taken from `game`,
      and `draws[0].split(";")`. A line without `:` leaves `draws[0]`
      undefined and a header without digits has no match to index: both
      throw, modelled as `None`. Text after a second `:` is ignored. */
  function ParseLine(line: string): (r: Option<LineParts>)
    ensures r.Some? ==> |r.value.id| > 0 && AllDigits(r.value.id)
  {
    var parts := Split(line, ':');
    var id := FirstDigitRun(parts[0]);
    if id.None? || |parts| < 2 then None
    else Some(LineParts(id.value, Split(parts[1], ';')))
  }

  /** A line is rejected exactly when it has no `:` or no digit before the first one. */
  lemma ParseLineFails(line: string)
    ensures ParseLine(line).None? <==>
              ':' !in line || forall i :: 0 <= i < |Split(line, ':')[0]| ==> !IsDigit(Split(line, ':')[0][i])
    ensures ParseLine(line).Some? ==> |ParseLine(line).value.combos| >= 1
  {
    var head := Split(line, ':')[0];
    SplitCount(line, ':');
    SplitHead(line, ':');
    FirstDigitRunNone(head);
  }

  /** `checkCombo` on each draw text, in order. */
  function CheckAll(combos: seq<string>): (vs: seq<Verdict>)
    ensures |vs| == |combos|
    ensures forall i :: 0 <= i < |combos| ==> vs[i] == CheckFrom(combos[i])
  {
    if |combos| == 0 then [] else [CheckFrom(combos[0])] + CheckAll(combos[1..])
  }

  /** The `forEach` of `possibleGames` over the draws of a parsed line. */
  predicate LineKept(parts: LineParts) {
    PossibleAfter(CheckAll(parts.combos), true)
  }

  /** The `map` of `possibleGames`: every line parsed. */
  function ParseLines(lines: seq<string>): seq<Option<LineParts>> {
    seq(|lines|, i requires 0 <= i < |lines| => ParseLine(lines[i]))
  }

  /** The rest of the `map` and the `filter(Boolean)`: the id text of each
      parsed line whose draws all pass `checkCombo` (a non-empty id text is
      truthy), or `None` when some line threw. */
  function KeptIds(parsed: seq<Option<LineParts>>): Option<seq<string>>
    decreases |parsed|
  {
    if |parsed| == 0 then Some([])
    else
      var rest := KeptIds(parsed[1..]);
      if parsed[0].None? || rest.None? then None
      else Some((if LineKept(parsed[0].value) then [parsed[0].value.id] else []) + rest.value)
  }

  /** `possibleGames`: it throws exactly when some line cannot be parsed,
      and otherwise lists id numerals. */
  function PossibleGames(lines: seq<string>): (r: Option<seq<string>>)
    ensures r.None? <==> exists i :: 0 <= i < |lines| && ParseLine(lines[i]).None?
    ensures r.Some? ==> forall i :: 0 <= i < |r.value| ==> |r.value[i]| > 0 && AllDigits(r.value[i])
  {
    var parsed := ParseLines(lines);
    KeptIdsNone(parsed);
    KeptIdsNumerals(parsed);
    assert forall i :: 0 <= i < |lines| ==> parsed[i] == ParseLine(lines[i]);
    assert (exists i :: 0 <= i < |parsed| && parsed[i].None?) <==> exists i :: 0 <= i < |lines| && ParseLine(lines[i]).None?;
    KeptIds(parsed)
  }

  lemma {:induction false} KeptIdsNone(parsed: seq<Option<LineParts>>)
    ensures KeptIds(parsed).None? <==> exists i :: 0 <= i < |parsed| && parsed[i].None?
    decreases |parsed|
  {
    if |parsed| > 0 {
      KeptIdsNone(parsed[1..]);
      if exists i :: 0 <= i < |parsed| - 1 && parsed[1..][i].None? {
        var i :| 0 <= i < |parsed| - 1 && parsed[1..][i].None?;
        assert parsed[i + 1].None?;
      }
      if exists i :: 0 <= i < |parsed| && parsed[i].None? {
        var i :| 0 <= i < |parsed| && parsed[i].None?;
        if i > 0 {
          assert parsed[1..][i - 1].None?;
        }
      }
    }
  }

  predicate NumeralIds(parsed: seq<Option<LineParts>>) {
    forall j :: 0 <= j < |parsed| && parsed[j].Some? ==> |parsed[j].value.id| > 0 && AllDigits(parsed[j].value.id)
  }

  lemma {:induction false} KeptIdsNumerals(parsed: seq<Option<LineParts>>)
    requires NumeralIds(parsed)
    ensures KeptIds(parsed).Some? ==>
              forall i :: 0 <= i < |KeptIds(parsed).value| ==> |KeptIds(parsed).value[i]| > 0 && AllDigits(KeptIds(parsed).value[i])
    decreases |parsed|
  {
    if |parsed| > 0 {
      assert NumeralIds(parsed[1..]) by {
        forall j | 0 <= j < |parsed| - 1 && parsed[1..][j].Some?
          ensures |parsed[1..][j].value.id| > 0 && AllDigits(parsed[1..][j].value.id)
        {
          assert parsed[1..][j] == parsed[j + 1];
        }
      }
      KeptIdsNumerals(parsed[1..]);
    }
  }

  /** The commented-out sum of the possible ids, each read by `parseInt(cur, 10)`. */
  function IdSum(ids: seq<string>): nat
    requires forall i :: 0 <= i < |ids| ==> AllDigits(ids[i])
    decreases |ids|
  {
    if |ids| == 0 then 0 else ParseDecimal(ids[0]) + IdSum(ids[1..])
  }

  /** The draws of a game, each read by `getMinCubes` into the same map. */
  function MinCubesCombos(m: CubeSet, combos: seq<string>): Option<CubeSet>
    decreases |combos|
  {
    if |combos| == 0 then Some(m)
    else match MinCubesScan(combos[0], m)
      case None => None
      case Some(m') => MinCubesCombos(m', combos[1..])
  }

  /** The power one line adds in `sumOfAllPowers`. */
  function LinePower(line: string): Option<nat> {
    match ParseLine(line)
    case None => None
    case Some(p) =>
      match MinCubesCombos(NoCubes, p.combos)
      case None => None
      case Some(m) => Some(Power(m))
  }

  /** The power of every line, as the `reduce` of `sumOfAllPowers` meets them. */
  function LinePowers(lines: seq<string>): seq<Option<nat>> {
    seq(|lines|, i requires 0 <= i < |lines| => LinePower(lines[i]))
  }

  /** The `reduce` from the accumulator `acc`: a line that throws ends the script. */
  function SumFrom(acc: nat, powers: seq<Option<nat>>): Option<nat>
    decreases |powers|
  {
    if |powers| == 0 then Some(acc)
    else match powers[0]
      case None => None
      case Some(p) => SumFrom(acc + p, powers[1..])
  }

  function SumOfAllPowers(lines: seq<string>): Option<nat> {
    SumFrom(0, LinePowers(lines))
  }

  /** What the script prints for the text of its input file: both passes
      run over the non-empty lines, and only the sum of powers is printed. */
  function Program(text: string): Option<nat> {
    var lines := Lines(text);
    if PossibleGames(lines).None? then None else SumOfAllPowers(lines)
  }

  /** The sum throws exactly when some line does. */
  lemma {:induction false} SumFromNone(acc: nat, powers: seq<Option<nat>>)
    ensures SumFrom(acc, powers).None? <==> exists i :: 0 <= i < |powers| && powers[i].None?
    decreases |powers|
  {
    if |powers| > 0 && powers[0].Some? {
      SumFromNone(acc + powers[0].value, powers[1..]);
      if exists i :: 0 <= i < |powers| - 1 && powers[1..][i].None? {
        var i :| 0 <= i < |powers| - 1 && powers[1..][i].None?;
        assert powers[i + 1].None?;
      }
      if exists i :: 0 <= i < |powers| && powers[i].None? {
        var i :| 0 <= i < |powers| && powers[i].None?;
        assert powers[1..][i - 1].None?;
      }
    }
  }

  /** Every file on which `possibleGames` throws makes `sumOfAllPowers`
      throw as well: a line that cannot be parsed has no power. */
  lemma PossibleGamesThrowsFirst(lines: seq<string>)
    requires PossibleGames(lines).None?
    ensures SumOfAllPowers(lines).None?
  {
    var i :| 0 <= i < |lines| && ParseLine(lines[i]).None?;
    assert LinePowers(lines)[i].None?;
    SumFromNone(0, LinePowers(lines));
  }

  /** The first pass never changes what is printed. */
  lemma ProgramIsSumOfAllPowers(text: string)
    ensures Program(text) == SumOfAllPowers(Lines(text))
  {
    if PossibleGames(Lines(text)).None? {
      PossibleGamesThrowsFirst(Lines(text));
    }
  }

  lemma {:induction false} SumFromShift(acc: nat, powers: seq<Option<nat>>)
    ensures SumFrom(acc, powers) == AddOpt(Some(acc), SumFrom(0, powers))
    decreases |powers|
  {
    if |powers| > 0 && powers[0].Some? {
      var p := powers[0].value;
      SumFromShift(acc + p, powers[1..]);
      SumFromShift(p, powers[1..]);
    }
  }

  lemma {:induction false} SumFromAppend(a: seq<Option<nat>>, b: seq<Option<nat>>)
    ensures SumFrom(0, a + b) == AddOpt(SumFrom(0, a), SumFrom(0, b))
    decreases |a|
  {
    if |a| == 0 {
      assert a + b == b;
    } else {
      assert (a + b)[0] == a[0] && (a + b)[1..] == a[1..] + b;
      if a[0].Some? {
        var p := a[0].value;
        SumFromShift(p, a[1..] + b);
        SumFromAppend(a[1..], b);
        SumFromShift(p, a[1..]);
        AddOptAssoc(Some(p), SumFrom(0, a[1..]), SumFrom(0, b));
      }
    }
  }

  /** The sum over two sets of lines is the sum of their sums; a line that
      throws makes the whole sum throw. */
  lemma SumOfAllPowersAppend(a: seq<string>, b: seq<string>)
    ensures SumOfAllPowers(a + b) == AddOpt(SumOfAllPowers(a), SumOfAllPowers(b))
  {
    assert LinePowers(a + b) == LinePowers(a) + LinePowers(b);
    SumFromAppend(LinePowers(a), LinePowers(b));
  }

  // ---------------------------------------------------------------------
  // Rendering well-formed games

  /** One pair as the puzzle input writes it after a `:`, `;` or `,`. */
  function PairText(p: Pair): string {
    " " + Decimal(p.count) + " " + p.color
  }

  /** The pairs of a draw, separated by commas. */
  function RenderDraw(d: Draw): string {
    if |d| == 0 then "" else PairText(d[0]) + RenderMore(d[1..])
  }

  function RenderMore(d: Draw): string
    decreases |d|
  {
    if |d| == 0 then "" else "," + PairText(d[0]) + RenderMore(d[1..])
  }

  predicate WellFormedDraw(d: Draw) {
    forall i :: 0 <= i < |d| ==> IsColorWord(d[i].color)
  }

  predicate WellFormedGame(g: Game) {
    |g.draws| > 0 && forall i :: 0 <= i < |g.draws| ==> WellFormedDraw(g.draws[i])
  }

  function RenderDraws(draws: seq<Draw>): (r: seq<string>)
    ensures |r| == |draws|
    ensures forall i :: 0 <= i < |draws| ==> r[i] == RenderDraw(draws[i])
  {
    seq(|draws|, i requires 0 <= i < |draws| => RenderDraw(draws[i]))
  }

  /** `Game <id>:` followed by the draws separated by semicolons. */
  function RenderGame(g: Game): string {
    "Game " + Decimal(g.id) + ":" + (if |g.draws| == 0 then "" else Join(RenderDraws(g.draws), ';'))
  }

  function RenderGames(games: seq<Game>): (r: seq<string>)
    ensures |r| == |games|
    ensures forall i :: 0 <= i < |games| ==> r[i] == RenderGame(games[i])
  {
    seq(|games|, i requires 0 <= i < |games| => RenderGame(games[i]))
  }

  /** A puzzle input: one line per game. */
  function RenderFile(games: seq<Game>): string
    requires |games| > 0
  {
    Join(RenderGames(games), '\n')
  }

  /** Characters a rendered draw is made of. */
  predicate DrawChars(s: string) {
    forall i :: 0 <= i < |s| ==> s[i] == ' ' || s[i] == ',' || IsWordChar(s[i])
  }

  lemma DrawCharsAppend(a: string, b: string)
    requires DrawChars(a) && DrawChars(b)
    ensures DrawChars(a + b)
  {
    forall i | 0 <= i < |a + b| ensures (a + b)[i] == ' ' || (a + b)[i] == ',' || IsWordChar((a + b)[i]) {
      if i >= |a| {
        assert (a + b)[i] == b[i - |a|];
      }
    }
  }

  lemma PairTextChars(p: Pair)
    requires IsColorWord(p.color)
    ensures DrawChars(PairText(p))
  {
    var ds := Decimal(p.count);
    assert DrawChars(ds) by {
      forall i | 0 <= i < |ds| ensures IsWordChar(ds[i]) {
        assert IsDigit(ds[i]);
      }
    }
    DrawCharsAppend(" ", ds);
    DrawCharsAppend(" " + ds, " ");
    DrawCharsAppend(" " + ds + " ", p.color);
  }

  lemma {:induction false} RenderMoreChars(d: Draw)
    requires WellFormedDraw(d)
    ensures DrawChars(RenderMore(d))
    ensures |RenderMore(d)| == 0 || RenderMore(d)[0] == ','
    decreases |d|
  {
    if |d| > 0 {
      assert d[1..] == d[1..] && forall i :: 0 <= i < |d[1..]| ==> d[1..][i] == d[i + 1];
      RenderMoreChars(d[1..]);
      PairTextChars(d[0]);
      DrawCharsAppend(",", PairText(d[0]));
      DrawCharsAppend("," + PairText(d[0]), RenderMore(d[1..]));
    }
  }

  /** A rendered draw holds no `:`, `;` or line break. */
  lemma RenderDrawChars(d: Draw)
    requires WellFormedDraw(d)
    ensures DrawChars(RenderDraw(d))
    ensures ':' !in RenderDraw(d) && ';' !in RenderDraw(d) && '\n' !in RenderDraw(d)
  {
    if |d| > 0 {
      RenderMoreChars(d[1..]);
      PairTextChars(d[0]);
      DrawCharsAppend(PairText(d[0]), RenderMore(d[1..]));
    }
  }

  /** The scan reads a rendered pair and stops right after its colour. */
  lemma NextPairText(p: Pair, tail: string)
    requires IsColorWord(p.color)
    requires |tail| == 0 || !IsWordChar(tail[0])
    ensures Next(PairText(p) + tail) == Some(Match(p, tail))
  {
    var ds := Decimal(p.count);
    var u := ds + " " + p.color + tail;
    Assoc5(" ", ds, " ", p.color, tail);
    LeadOf(ds, p.color, tail);
    ParseDecimalOfDecimal(p.count);
    NextSkips(' ', u);
    NextAtLead(u);
  }

  lemma Assoc5<T>(a: seq<T>, b: seq<T>, c: seq<T>, d: seq<T>, e: seq<T>)
    ensures a + b + c + d + e == a + (b + c + d + e)
  {
  }

  /** A match at the head of the text is the leftmost one. */
  lemma NextAtLead(t: string)
    requires Lead(t).Some?
    ensures Next(t) == Lead(t)
  {
  }

  lemma {:induction false} TokensRenderMore(d: Draw, after: string)
    requires WellFormedDraw(d) && (|after| == 0 || !IsWordChar(after[0]))
    ensures Tokens(RenderMore(d) + after) == Scan(d + Tokens(after).pairs, Tokens(after).complete)
    decreases |d|
  {
    var rest := Tokens(after);
    if |d| == 0 {
      assert RenderMore(d) + after == after && d + rest.pairs == rest.pairs;
    } else {
      var tail := RenderMore(d[1..]) + after;
      RenderMoreThenStart(d[1..], after);
      TokensRenderMore(d[1..], after);
      TokensAfterPair(d[0], tail);
      Assoc4(",", PairText(d[0]), RenderMore(d[1..]), after);
      TokensSkip(',', PairText(d[0]) + tail);
      HeadTail(d, rest.pairs);
    }
  }

  /** The scan of a rendered draw finds exactly its pairs, then goes on
      with whatever text follows the last colour. */
  lemma TokensRenderDrawThen(d: Draw, after: string)
    requires WellFormedDraw(d) && (|after| == 0 || !IsWordChar(after[0]))
    ensures Tokens(RenderDraw(d) + after) == Scan(d + Tokens(after).pairs, Tokens(after).complete)
  {
    var rest := Tokens(after);
    if |d| == 0 {
      assert RenderDraw(d) + after == after && d + rest.pairs == rest.pairs;
    } else {
      var tail := RenderMore(d[1..]) + after;
      assert RenderDraw(d) + after == PairText(d[0]) + tail by {
        ConcatAssoc(PairText(d[0]), RenderMore(d[1..]), after);
      }
      RenderMoreThenStart(d[1..], after);
      TokensRenderMore(d[1..], after);
      assert Tokens(tail) == Scan(d[1..] + rest.pairs, rest.complete);
      TokensAfterPair(d[0], tail);
      HeadTail(d, rest.pairs);
    }
  }

  /** What follows a rendered pair starts with a comma or is the text after the draw. */
  lemma RenderMoreThenStart(d: Draw, after: string)
    requires WellFormedDraw(d) && (|after| == 0 || !IsWordChar(after[0]))
    ensures |RenderMore(d) + after| == 0 || !IsWordChar((RenderMore(d) + after)[0])
  {
    RenderMoreChars(d);
    if |RenderMore(d)| == 0 {
      assert RenderMore(d) + after == after;
    }
  }

  /** A rendered pair is read as one match, and the scan goes on after it. */
  lemma TokensAfterPair(p: Pair, tail: string)
    requires IsColorWord(p.color) && (|tail| == 0 || !IsWordChar(tail[0]))
    ensures Tokens(PairText(p) + tail) == Scan([p] + Tokens(tail).pairs, Tokens(tail).complete)
  {
    NextPairText(p, tail);
  }

  lemma TokensSkip(c: char, t: string)
    requires !IsDigit(c) && |t| > 0
    ensures Tokens([c] + t) == Tokens(t)
  {
    NextSkips(c, t);
  }

  /** The scan of a rendered draw finds exactly its pairs and reaches the end. */
  lemma TokensRenderDraw(d: Draw)
    requires WellFormedDraw(d)
    ensures Tokens(RenderDraw(d)) == Scan(d, true)
  {
    TokensRenderDrawThen(d, "");
    assert RenderDraw(d) + "" == RenderDraw(d) && d + [] == d;
  }

  /** Text after the last pair that holds no further match, such as a
      trailing space or the `\r` of a Windows line ending: `checkCombo`
      answers `undefined` for a draw that fits, and `getMinCubes` throws. */
  lemma TrailingTextUndecided(d: Draw, after: string, m: CubeSet)
    requires WellFormedDraw(d) && |after| > 0 && !IsWordChar(after[0]) && Next(after).None?
    ensures CheckFrom(RenderDraw(d) + after) == if DrawFits(d) then Stuck else Exceeds
    ensures MinCubesScan(RenderDraw(d) + after, m).None?
  {
    TokensRenderDrawThen(d, after);
    assert Tokens(after) == Scan([], false);
    assert d + [] == d;
    CheckFromTokens(RenderDraw(d) + after);
    MinCubesScanTokens(RenderDraw(d) + after, m);
    CheckPairsExactly(d, false);
  }

  /** On a rendered draw `checkCombo` answers `true` or `false`, never
      `undefined`, and `true` exactly when the draw fits. */
  lemma CheckComboRendered(d: Draw)
    requires WellFormedDraw(d)
    ensures CheckFrom(RenderDraw(d)) == CheckPairs(d, true)
    ensures CheckFrom(RenderDraw(d)) == Fits <==> DrawFits(d)
    ensures CheckFrom(RenderDraw(d)) != Stuck
  {
    TokensRenderDraw(d);
    CheckFromTokens(RenderDraw(d));
    CheckPairsExactly(d, true);
  }

  /** On a rendered draw `getMinCubes` never throws and folds in every pair. */
  lemma MinCubesRendered(d: Draw, m: CubeSet)
    requires WellFormedDraw(d)
    ensures MinCubesScan(RenderDraw(d), m) == Some(RaiseAll(m, d))
  {
    TokensRenderDraw(d);
    MinCubesScanTokens(RenderDraw(d), m);
  }

  /** Reading a rendered line gives back the game's id and draw texts. */
  lemma ParseRenderedGame(g: Game)
    requires WellFormedGame(g)
    ensures ParseLine(RenderGame(g)) == Some(LineParts(Decimal(g.id), RenderDraws(g.draws)))
  {
    var head, body := "Game " + Decimal(g.id), Join(RenderDraws(g.draws), ';');
    assert RenderGame(g) == head + [':'] + body;
    RenderedHeader(g.id);
    RenderedBody(g.draws);
    SplitAround(head, body, ':');
    SplitWithoutSep(head, ':');
    SplitWithoutSep(body, ':');
  }

  /** The header `Game <id>` holds no `:` and its digits are the id. */
  lemma RenderedHeader(id: nat)
    ensures ':' !in "Game " + Decimal(id)
    ensures FirstDigitRun("Game " + Decimal(id)) == Some(Decimal(id))
  {
    var ds := Decimal(id);
    assert forall i :: 0 <= i < |ds| ==> IsDigit(ds[i]);
    FirstDigitRunSkips("Game ", ds);
    DigitRunOf(ds, "");
    assert ds + "" == ds && ds[..|ds|] == ds;
  }

  /** The draws part of a rendered line holds no `:` and splits at `;`
      into the rendered draws. */
  lemma RenderedBody(draws: seq<Draw>)
    requires |draws| > 0 && forall i :: 0 <= i < |draws| ==> WellFormedDraw(draws[i])
    ensures ':' !in Join(RenderDraws(draws), ';')
    ensures Split(Join(RenderDraws(draws), ';'), ';') == RenderDraws(draws)
  {
    var renders := RenderDraws(draws);
    forall i | 0 <= i < |renders| ensures ':' !in renders[i] && ';' !in renders[i] {
      RenderDrawChars(draws[i]);
    }
    SplitJoin(renders, ';');
    NotInJoin(renders, ';', ':');
  }

  /** `checkCombo` on each rendered draw gives the abstract verdicts. */
  lemma {:induction false} CheckAllRendered(draws: seq<Draw>)
    requires forall i :: 0 <= i < |draws| ==> WellFormedDraw(draws[i])
    ensures CheckAll(RenderDraws(draws)) == Verdicts(draws)
    decreases |draws|
  {
    if |draws| > 0 {
      CheckComboRendered(draws[0]);
      CheckAllRendered(draws[1..]);
    }
  }

  lemma {:induction false} MinCubesCombosRendered(m: CubeSet, draws: seq<Draw>)
    requires forall i :: 0 <= i < |draws| ==> WellFormedDraw(draws[i])
    ensures MinCubesCombos(m, RenderDraws(draws)) == Some(RaiseDraws(m, draws))
    decreases |draws|
  {
    if |draws| > 0 {
      MinCubesRendered(draws[0], m);
      MinCubesCombosRendered(RaiseAll(m, draws[0]), draws[1..]);
      assert RenderDraws(draws)[1..] == RenderDraws(draws[1..]);
    }
  }

  /** On a rendered game line, `possibleGames` keeps the id exactly when
      the game is possible, and `sumOfAllPowers` adds its power. */
  lemma RenderedGameRead(g: Game)
    requires WellFormedGame(g)
    ensures ParseLine(RenderGame(g)).Some?
    ensures LineKept(ParseLine(RenderGame(g)).value) <==> GamePossible(g.draws)
    ensures LinePower(RenderGame(g)) == Some(Power(MinCubes(g.draws)))
  {
    ParseRenderedGame(g);
    CheckAllRendered(g.draws);
    MinCubesCombosRendered(NoCubes, g.draws);
  }

  /** The id texts of the possible games, as `Decimal` writes them. */
  function DecimalIds(ids: seq<nat>): (r: seq<string>)
    ensures |r| == |ids|
    ensures forall i :: 0 <= i < |ids| ==> r[i] == Decimal(ids[i])
  {
    if |ids| == 0 then [] else [Decimal(ids[0])] + DecimalIds(ids[1..])
  }

  function DrawsOf(games: seq<Game>): (r: seq<seq<Draw>>)
    ensures |r| == |games|
    ensures forall i :: 0 <= i < |games| ==> r[i] == games[i].draws
  {
    if |games| == 0 then [] else [games[0].draws] + DrawsOf(games[1..])
  }

  /** A parsed line that `possibleGames` reads as game `g`. */
  predicate ReadsAs(parsed: Option<LineParts>, g: Game) {
    && parsed.Some?
    && parsed.value.id == Decimal(g.id)
    && (LineKept(parsed.value) <==> GamePossible(g.draws))
  }

  lemma PossibleGamesRendered(games: seq<Game>)
    requires forall i :: 0 <= i < |games| ==> WellFormedGame(games[i])
    ensures PossibleGames(RenderGames(games)) == Some(DecimalIds(PossibleIds(games)))
  {
    var parsed := ParseLines(RenderGames(games));
    forall i | 0 <= i < |games| ensures ReadsAs(parsed[i], games[i]) {
      RenderedGameRead(games[i]);
      ParseRenderedGame(games[i]);
    }
    KeptIdsOfGames(parsed, games);
  }

  /** Lines that read as the games keep the ids of the possible games. */
  lemma {:induction false} KeptIdsOfGames(parsed: seq<Option<LineParts>>, games: seq<Game>)
    requires |parsed| == |games| && forall i :: 0 <= i < |parsed| ==> ReadsAs(parsed[i], games[i])
    ensures KeptIds(parsed) == Some(DecimalIds(PossibleIds(games)))
    decreases |parsed|
  {
    if |parsed| > 0 {
      KeptIdsOfGames(parsed[1..], games[1..]);
      assert [games[0]] + games[1..] == games;
      PossibleIdsCons(games[0], games[1..]);
      var kept := if GamePossible(games[0].draws) then [games[0].id] else [];
      DecimalIdsAppend(kept, PossibleIds(games[1..]));
    }
  }

  lemma {:induction false} DecimalIdsAppend(a: seq<nat>, b: seq<nat>)
    ensures DecimalIds(a + b) == DecimalIds(a) + DecimalIds(b)
    decreases |a|
  {
    if |a| == 0 {
      assert a + b == b;
    } else {
      assert (a + b)[1..] == a[1..] + b;
      DecimalIdsAppend(a[1..], b);
    }
  }

  lemma SumOfAllPowersRendered(games: seq<Game>)
    requires forall i :: 0 <= i < |games| ==> WellFormedGame(games[i])
    ensures SumOfAllPowers(RenderGames(games)) == Some(SumPowers(DrawsOf(games)))
  {
    var powers := LinePowers(RenderGames(games));
    forall i | 0 <= i < |games| ensures powers[i] == Some(Power(MinCubes(games[i].draws))) {
      RenderedGameRead(games[i]);
    }
    PowersOfGames(powers, games);
  }

  /** Powers read from the lines of the games add up to the games' powers. */
  lemma {:induction false} PowersOfGames(powers: seq<Option<nat>>, games: seq<Game>)
    requires |powers| == |games|
    requires forall i :: 0 <= i < |powers| ==> powers[i] == Some(Power(MinCubes(games[i].draws)))
    ensures SumFrom(0, powers) == Some(SumPowers(DrawsOf(games)))
    decreases |powers|
  {
    if |powers| > 0 {
      PowersOfGames(powers[1..], games[1..]);
      SumFromShift(Power(MinCubes(games[0].draws)), powers[1..]);
      assert DrawsOf(games) == [games[0].draws] + DrawsOf(games[1..]);
      SumPowersCons(games[0].draws, DrawsOf(games[1..]));
    }
  }

  /** A file of rendered games: the printed number is the sum of the games'
      powers, and `possibleGames` lists the ids of the possible games. */
  lemma RenderedFileRead(games: seq<Game>)
    requires |games| > 0 && forall i :: 0 <= i < |games| ==> WellFormedGame(games[i])
    ensures Lines(RenderFile(games)) == RenderGames(games)
    ensures PossibleGames(Lines(RenderFile(games))) == Some(DecimalIds(PossibleIds(games)))
    ensures Program(RenderFile(games)) == Some(SumPowers(DrawsOf(games)))
  {
    var lines := RenderGames(games);
    forall i | 0 <= i < |lines| ensures '\n' !in lines[i] && |lines[i]| > 0 {
      RenderedLineShape(games[i]);
    }
    SplitJoin(lines, '\n');
    NonEmptyKeepsAll(lines);
    PossibleGamesRendered(games);
    SumOfAllPowersRendered(games);
  }

  lemma RenderedLineShape(g: Game)
    requires WellFormedGame(g)
    ensures '\n' !in RenderGame(g) && |RenderGame(g)| > 0
  {
    var renders := RenderDraws(g.draws);
    var ds := Decimal(g.id);
    forall i | 0 <= i < |renders| ensures '\n' !in renders[i] {
      RenderDrawChars(g.draws[i]);
    }
    NotInJoin(renders, ';', '\n');
    assert forall i :: 0 <= i < |ds| ==> IsDigit(ds[i]);
  }

  /** The sum of the possible ids of a rendered file is the sum of the ids. */
  lemma {:induction false} IdSumOfDecimals(ids: seq<nat>)
    ensures IdSum(DecimalIds(ids)) == Sum(ids)
    decreases |ids|
  {
    if |ids| > 0 {
      ParseDecimalOfDecimal(ids[0]);
      IdSumOfDecimals(ids[1..]);
      assert DecimalIds(ids)[1..] == DecimalIds(ids[1..]);
    }
  }
}
