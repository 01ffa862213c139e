/** The worked examples of the calibration extractor, proved for the model
    of `1.js`: each line's digits as the positional reading finds them and
    the value the script computes for it. The proofs take each line
    character by character, so that they reason about its positions one at
    a time rather than evaluating whole string literals; the examples then
    state the values for the literals themselves. */
module CalibrationExamples {
  import opened Wrappers
  import opened Strings
  import opened Calibration
  import opened CalibrationScan

  /** A text beginning with word `j` reads as digit `j + 1` at its first position. */
  lemma WordAtHead(t: string, j: nat)
    requires j < |Words| && IsPrefix(Words[j], t)
    ensures HeadDigit(t, 0) == [DigitChar(j + 1)]
  {
    WordLetters(j, 0);
    WordEnds(j);
    forall i | 0 <= i < j ensures !IsPrefix(Words[i], t) {
      if IsPrefix(Words[i], t) {
        WordEnds(i);
        assert false;
      }
    }
    FirstWordFrom(t, 0, j);
  }

  lemma {:induction false} FirstWordFrom(t: string, i: nat, j: nat)
    requires i <= j < |Words| && IsPrefix(Words[j], t)
    requires forall i' :: i <= i' < j ==> !IsPrefix(Words[i'], t)
    ensures WordDigitFrom(t, i) == [DigitChar(j + 1)]
    decreases j - i
  {
    if i < j {
      FirstWordFrom(t, i + 1, j);
    }
  }

  /** A letter whose pair with the next character starts no word reads as nothing. */
  lemma NoWordHead(t: string)
    requires |t| > 0 && !IsDigit(t[0])
    requires |t| >= 2 ==> forall j :: 0 <= j < |Words| ==> !(t[0] == Words[j][0] && t[1] == Words[j][1])
    ensures HeadDigit(t, 0) == []
  {
    forall j | 0 <= j < |Words| ensures !IsPrefix(Words[j], t) {
      WordEnds(j);
    }
    WordDigitNone(t, 0);
  }

  /** The positions from `i` on read as the table says: position `j` reads
      `heads[j]`, and `rests[j]` is what positions `j` and later read. */
  lemma {:induction false} ReadFrom(s: string, i: nat, heads: seq<string>, rests: seq<string>)
    requires i <= |s| && |heads| == |s| && |rests| == |s| + 1 && rests[|s|] == ""
    requires forall j :: i <= j < |s| ==> HeadDigit(s[j..], 0) == heads[j] && rests[j] == heads[j] + rests[j + 1]
    ensures ScanFrom(s[i..], 0) == rests[i]
    decreases |s| - i
  {
    if i < |s| {
      ReadFrom(s, i + 1, heads, rests);
      assert s[i..][1..] == s[i + 1..];
    }
  }

  /** "two1nine" is worth 29. */
  lemma LineTwoOneNine(line: string)
    requires |line| == 8
    requires line[0] == 't' && line[1] == 'w' && line[2] == 'o' && line[3] == '1' && line[4] == 'n' && line[5] == 'i'
    requires line[6] == 'n' && line[7] == 'e'
    ensures CalibrationValue(line) == Some(29)
  {
    ReadTwoOneNine(line);
    ValueFromPositionalReading(line);
  }

  /** "two1nine" reads 2, 1, 9. */
  lemma ReadTwoOneNine(s: string)
    requires |s| == 8
    requires s[0] == 't' && s[1] == 'w' && s[2] == 'o' && s[3] == '1' && s[4] == 'n' && s[5] == 'i'
    requires s[6] == 'n' && s[7] == 'e'
    ensures ScanDigits(s) == "219"
  {
    var heads := ["2", "", "", "1", "9", "", "", ""];
    var rests := ["219", "19", "19", "19", "9", "", "", "", ""];
    forall j | 0 <= j < |s| ensures rests[j] == heads[j] + rests[j + 1] {
    }
    forall j | 0 <= j < |s| ensures HeadDigit(s[j..], 0) == heads[j] {
      if j == 0 { assert s[j..][..3] == Words[1]; WordAtHead(s[j..], 1); }
      else if j == 1 { NoWordHead(s[j..]); }
      else if j == 2 { NoWordHead(s[j..]); }
      else if j == 3 {}
      else if j == 4 { assert s[j..][..4] == Words[8]; WordAtHead(s[j..], 8); }
      else if j == 5 { NoWordHead(s[j..]); }
      else if j == 6 { NoWordHead(s[j..]); }
      else if j == 7 { NoWordHead(s[j..]); }
    }
    ReadFrom(s, 0, heads, rests);
  }

  /** "eightwothree" is worth 83. */
  lemma LineEightwoThree(line: string)
    requires |line| == 12
    requires line[0] == 'e' && line[1] == 'i' && line[2] == 'g' && line[3] == 'h' && line[4] == 't' && line[5] == 'w'
    requires line[6] == 'o' && line[7] == 't' && line[8] == 'h' && line[9] == 'r' && line[10] == 'e' && line[11] == 'e'
    ensures CalibrationValue(line) == Some(83)
  {
    ReadEightwoThree(line);
    ValueFromPositionalReading(line);
  }

  /** "eightwothree" reads 8, 2, 3. */
  lemma ReadEightwoThree(s: string)
    requires |s| == 12
    requires s[0] == 'e' && s[1] == 'i' && s[2] == 'g' && s[3] == 'h' && s[4] == 't' && s[5] == 'w'
    requires s[6] == 'o' && s[7] == 't' && s[8] == 'h' && s[9] == 'r' && s[10] == 'e' && s[11] == 'e'
    ensures ScanDigits(s) == "823"
  {
    var heads := ["8", "", "", "", "2", "", "", "3", "", "", "", ""];
    var rests := ["823", "23", "23", "23", "23", "3", "3", "3", "", "", "", "", ""];
    forall j | 0 <= j < |s| ensures rests[j] == heads[j] + rests[j + 1] {
    }
    forall j | 0 <= j < |s| ensures HeadDigit(s[j..], 0) == heads[j] {
      if j == 0 { assert s[j..][..5] == Words[7]; WordAtHead(s[j..], 7); }
      else if j == 1 { NoWordHead(s[j..]); }
      else if j == 2 { NoWordHead(s[j..]); }
      else if j == 3 { NoWordHead(s[j..]); }
      else if j == 4 { assert s[j..][..3] == Words[1]; WordAtHead(s[j..], 1); }
      else if j == 5 { NoWordHead(s[j..]); }
      else if j == 6 { NoWordHead(s[j..]); }
      else if j == 7 { assert s[j..][..5] == Words[2]; WordAtHead(s[j..], 2); }
      else if j == 8 { NoWordHead(s[j..]); }
      else if j == 9 { NoWordHead(s[j..]); }
      else if j == 10 { NoWordHead(s[j..]); }
      else if j == 11 { NoWordHead(s[j..]); }
    }
    ReadFrom(s, 0, heads, rests);
  }

  /** "abcone2threexyz" is worth 13. */
  lemma LineAbcOneTwoThreeXyz(line: string)
    requires |line| == 15
    requires line[0] == 'a' && line[1] == 'b' && line[2] == 'c' && line[3] == 'o' && line[4] == 'n' && line[5] == 'e'
    requires line[6] == '2' && line[7] == 't' && line[8] == 'h' && line[9] == 'r' && line[10] == 'e' && line[11] == 'e'
    requires line[12] == 'x' && line[13] == 'y' && line[14] == 'z'
    ensures CalibrationValue(line) == Some(13)
  {
    ReadAbcOneTwoThreeXyz(line);
    ValueFromPositionalReading(line);
  }

  /** The digit each position of "abcone2threexyz" contributes. */
  lemma HeadsAbcOneTwoThreeXyz(s: string, heads: seq<string>)
    requires |s| == 15
    requires s[0] == 'a' && s[1] == 'b' && s[2] == 'c' && s[3] == 'o' && s[4] == 'n' && s[5] == 'e'
    requires s[6] == '2' && s[7] == 't' && s[8] == 'h' && s[9] == 'r' && s[10] == 'e' && s[11] == 'e'
    requires s[12] == 'x' && s[13] == 'y' && s[14] == 'z'
    requires heads == ["", "", "", "1", "", "", "2", "3", "", "", "", "", "", "", ""]
    ensures |heads| == |s| && forall j :: 0 <= j < |s| ==> HeadDigit(s[j..], 0) == heads[j]
  {
    forall j | 0 <= j < |s| ensures HeadDigit(s[j..], 0) == heads[j] {
      if j == 0 { NoWordHead(s[j..]); }
      else if j == 1 { NoWordHead(s[j..]); }
      else if j == 2 { NoWordHead(s[j..]); }
      else if j == 3 { assert s[j..][..3] == Words[0]; WordAtHead(s[j..], 0); }
      else if j == 4 { NoWordHead(s[j..]); }
      else if j == 5 { NoWordHead(s[j..]); }
      else if j == 6 {}
      else if j == 7 { assert s[j..][..5] == Words[2]; WordAtHead(s[j..], 2); }
      else if j == 8 { NoWordHead(s[j..]); }
      else if j == 9 { NoWordHead(s[j..]); }
      else if j == 10 { NoWordHead(s[j..]); }
      else if j == 11 { NoWordHead(s[j..]); }
      else if j == 12 { NoWordHead(s[j..]); }
      else if j == 13 { NoWordHead(s[j..]); }
      else if j == 14 { NoWordHead(s[j..]); }
    }
  }

  /** "abcone2threexyz" reads 1, 2, 3. */
  lemma ReadAbcOneTwoThreeXyz(s: string)
    requires |s| == 15
    requires s[0] == 'a' && s[1] == 'b' && s[2] == 'c' && s[3] == 'o' && s[4] == 'n' && s[5] == 'e'
    requires s[6] == '2' && s[7] == 't' && s[8] == 'h' && s[9] == 'r' && s[10] == 'e' && s[11] == 'e'
    requires s[12] == 'x' && s[13] == 'y' && s[14] == 'z'
    ensures ScanDigits(s) == "123"
  {
    var heads := ["", "", "", "1", "", "", "2", "3", "", "", "", "", "", "", ""];
    var rests := ["123", "123", "123", "123", "23", "23", "23", "3", "", "", "", "", "", "", "", ""];
    forall j | 0 <= j < |s| ensures rests[j] == heads[j] + rests[j + 1] {
    }
    HeadsAbcOneTwoThreeXyz(s, heads);
    ReadFrom(s, 0, heads, rests);
  }

  /** "xtwone3four" is worth 24. */
  lemma LineXTwoneThreeFour(line: string)
    requires |line| == 11
    requires line[0] == 'x' && line[1] == 't' && line[2] == 'w' && line[3] == 'o' && line[4] == 'n' && line[5] == 'e'
    requires line[6] == '3' && line[7] == 'f' && line[8] == 'o' && line[9] == 'u' && line[10] == 'r'
    ensures CalibrationValue(line) == Some(24)
  {
    ReadXTwoneThreeFour(line);
    ValueFromPositionalReading(line);
  }

  /** "xtwone3four" reads 2, 1, 3, 4. */
  lemma ReadXTwoneThreeFour(s: string)
    requires |s| == 11
    requires s[0] == 'x' && s[1] == 't' && s[2] == 'w' && s[3] == 'o' && s[4] == 'n' && s[5] == 'e'
    requires s[6] == '3' && s[7] == 'f' && s[8] == 'o' && s[9] == 'u' && s[10] == 'r'
    ensures ScanDigits(s) == "2134"
  {
    var heads := ["", "2", "", "1", "", "", "3", "4", "", "", ""];
    var rests := ["2134", "2134", "134", "134", "34", "34", "34", "4", "", "", "", ""];
    forall j | 0 <= j < |s| ensures rests[j] == heads[j] + rests[j + 1] {
    }
    forall j | 0 <= j < |s| ensures HeadDigit(s[j..], 0) == heads[j] {
      if j == 0 { NoWordHead(s[j..]); }
      else if j == 1 { assert s[j..][..3] == Words[1]; WordAtHead(s[j..], 1); }
      else if j == 2 { NoWordHead(s[j..]); }
      else if j == 3 { assert s[j..][..3] == Words[0]; WordAtHead(s[j..], 0); }
      else if j == 4 { NoWordHead(s[j..]); }
      else if j == 5 { NoWordHead(s[j..]); }
      else if j == 6 {}
      else if j == 7 { assert s[j..][..4] == Words[3]; WordAtHead(s[j..], 3); }
      else if j == 8 { NoWordHead(s[j..]); }
      else if j == 9 { NoWordHead(s[j..]); }
      else if j == 10 { NoWordHead(s[j..]); }
    }
    ReadFrom(s, 0, heads, rests);
  }

  /** "4nineeightseven2" is worth 42. */
  lemma LineFourNineEightSevenTwo(line: string)
    requires |line| == 16
    requires line[0] == '4' && line[1] == 'n' && line[2] == 'i' && line[3] == 'n' && line[4] == 'e' && line[5] == 'e'
    requires line[6] == 'i' && line[7] == 'g' && line[8] == 'h' && line[9] == 't' && line[10] == 's' && line[11] == 'e'
    requires line[12] == 'v' && line[13] == 'e' && line[14] == 'n' && line[15] == '2'
    ensures CalibrationValue(line) == Some(42)
  {
    ReadFourNineEightSevenTwo(line);
    ValueFromPositionalReading(line);
  }

  /** The digit each position of "4nineeightseven2" contributes. */
  lemma HeadsFourNineEightSevenTwo(s: string, heads: seq<string>)
    requires |s| == 16
    requires s[0] == '4' && s[1] == 'n' && s[2] == 'i' && s[3] == 'n' && s[4] == 'e' && s[5] == 'e'
    requires s[6] == 'i' && s[7] == 'g' && s[8] == 'h' && s[9] == 't' && s[10] == 's' && s[11] == 'e'
    requires s[12] == 'v' && s[13] == 'e' && s[14] == 'n' && s[15] == '2'
    requires heads == ["4", "9", "", "", "", "8", "", "", "", "", "7", "", "", "", "", "2"]
    ensures |heads| == |s| && forall j :: 0 <= j < |s| ==> HeadDigit(s[j..], 0) == heads[j]
  {
    forall j | 0 <= j < |s| ensures HeadDigit(s[j..], 0) == heads[j] {
      if j == 0 {}
      else if j == 1 { assert s[j..][..4] == Words[8]; WordAtHead(s[j..], 8); }
      else if j == 2 { NoWordHead(s[j..]); }
      else if j == 3 { NoWordHead(s[j..]); }
      else if j == 4 { NoWordHead(s[j..]); }
      else if j == 5 { assert s[j..][..5] == Words[7]; WordAtHead(s[j..], 7); }
      else if j == 6 { NoWordHead(s[j..]); }
      else if j == 7 { NoWordHead(s[j..]); }
      else if j == 8 { NoWordHead(s[j..]); }
      else if j == 9 { NoWordHead(s[j..]); }
      else if j == 10 { assert s[j..][..5] == Words[6]; WordAtHead(s[j..], 6); }
      else if j == 11 { NoWordHead(s[j..]); }
      else if j == 12 { NoWordHead(s[j..]); }
      else if j == 13 { NoWordHead(s[j..]); }
      else if j == 14 { NoWordHead(s[j..]); }
      else if j == 15 {}
    }
  }

  /** "4nineeightseven2" reads 4, 9, 8, 7, 2. */
  lemma ReadFourNineEightSevenTwo(s: string)
    requires |s| == 16
    requires s[0] == '4' && s[1] == 'n' && s[2] == 'i' && s[3] == 'n' && s[4] == 'e' && s[5] == 'e'
    requires s[6] == 'i' && s[7] == 'g' && s[8] == 'h' && s[9] == 't' && s[10] == 's' && s[11] == 'e'
    requires s[12] == 'v' && s[13] == 'e' && s[14] == 'n' && s[15] == '2'
    ensures ScanDigits(s) == "49872"
  {
    var heads := ["4", "9", "", "", "", "8", "", "", "", "", "7", "", "", "", "", "2"];
    var rests := ["49872", "9872", "872", "872", "872", "872", "72", "72", "72", "72", "72", "2", "2", "2", "2", "2", ""];
    forall j | 0 <= j < |s| ensures rests[j] == heads[j] + rests[j + 1] {
    }
    HeadsFourNineEightSevenTwo(s, heads);
    ReadFrom(s, 0, heads, rests);
  }

  /** "zoneight234" is worth 14. */
  lemma LineZOneightTwoThreeFour(line: string)
    requires |line| == 11
    requires line[0] == 'z' && line[1] == 'o' && line[2] == 'n' && line[3] == 'e' && line[4] == 'i' && line[5] == 'g'
    requires line[6] == 'h' && line[7] == 't' && line[8] == '2' && line[9] == '3' && line[10] == '4'
    ensures CalibrationValue(line) == Some(14)
  {
    ReadZOneightTwoThreeFour(line);
    ValueFromPositionalReading(line);
  }

  /** "zoneight234" reads 1, 8, 2, 3, 4. */
  lemma ReadZOneightTwoThreeFour(s: string)
    requires |s| == 11
    requires s[0] == 'z' && s[1] == 'o' && s[2] == 'n' && s[3] == 'e' && s[4] == 'i' && s[5] == 'g'
    requires s[6] == 'h' && s[7] == 't' && s[8] == '2' && s[9] == '3' && s[10] == '4'
    ensures ScanDigits(s) == "18234"
  {
    var heads := ["", "1", "", "8", "", "", "", "", "2", "3", "4"];
    var rests := ["18234", "18234", "8234", "8234", "234", "234", "234", "234", "234", "34", "4", ""];
    forall j | 0 <= j < |s| ensures rests[j] == heads[j] + rests[j + 1] {
    }
    forall j | 0 <= j < |s| ensures HeadDigit(s[j..], 0) == heads[j] {
      if j == 0 { NoWordHead(s[j..]); }
      else if j == 1 { assert s[j..][..3] == Words[0]; WordAtHead(s[j..], 0); }
      else if j == 2 { NoWordHead(s[j..]); }
      else if j == 3 { assert s[j..][..5] == Words[7]; WordAtHead(s[j..], 7); }
      else if j == 4 { NoWordHead(s[j..]); }
      else if j == 5 { NoWordHead(s[j..]); }
      else if j == 6 { NoWordHead(s[j..]); }
      else if j == 7 { NoWordHead(s[j..]); }
      else if j == 8 {}
      else if j == 9 {}
      else if j == 10 {}
    }
    ReadFrom(s, 0, heads, rests);
  }

  /** "7pqrstsixteen" is worth 76. */
  lemma LineSevenPqrstSixteen(line: string)
    requires |line| == 13
    requires line[0] == '7' && line[1] == 'p' && line[2] == 'q' && line[3] == 'r' && line[4] == 's' && line[5] == 't'
    requires line[6] == 's' && line[7] == 'i' && line[8] == 'x' && line[9] == 't' && line[10] == 'e' && line[11] == 'e'
    requires line[12] == 'n'
    ensures CalibrationValue(line) == Some(76)
  {
    ReadSevenPqrstSixteen(line);
    ValueFromPositionalReading(line);
  }

  /** "7pqrstsixteen" reads 7, 6. */
  lemma ReadSevenPqrstSixteen(s: string)
    requires |s| == 13
    requires s[0] == '7' && s[1] == 'p' && s[2] == 'q' && s[3] == 'r' && s[4] == 's' && s[5] == 't'
    requires s[6] == 's' && s[7] == 'i' && s[8] == 'x' && s[9] == 't' && s[10] == 'e' && s[11] == 'e'
    requires s[12] == 'n'
    ensures ScanDigits(s) == "76"
  {
    var heads := ["7", "", "", "", "", "", "6", "", "", "", "", "", ""];
    var rests := ["76", "6", "6", "6", "6", "6", "6", "", "", "", "", "", "", ""];
    forall j | 0 <= j < |s| ensures rests[j] == heads[j] + rests[j + 1] {
    }
    forall j | 0 <= j < |s| ensures HeadDigit(s[j..], 0) == heads[j] {
      if j == 0 {}
      else if j == 1 { NoWordHead(s[j..]); }
      else if j == 2 { NoWordHead(s[j..]); }
      else if j == 3 { NoWordHead(s[j..]); }
      else if j == 4 { NoWordHead(s[j..]); }
      else if j == 5 { NoWordHead(s[j..]); }
      else if j == 6 { assert s[j..][..3] == Words[5]; WordAtHead(s[j..], 5); }
      else if j == 7 { NoWordHead(s[j..]); }
      else if j == 8 { NoWordHead(s[j..]); }
      else if j == 9 { NoWordHead(s[j..]); }
      else if j == 10 { NoWordHead(s[j..]); }
      else if j == 11 { NoWordHead(s[j..]); }
      else if j == 12 { NoWordHead(s[j..]); }
    }
    ReadFrom(s, 0, heads, rests);
  }

  // ---------------------------------------------------------------------
  // The worked example, line by line and in total

  lemma ExampleTwoOneNine()
    ensures CalibrationValue("two1nine") == Some(29)
  {
    LineTwoOneNine("two1nine");
  }

  lemma ExampleEightwoThree()
    ensures CalibrationValue("eightwothree") == Some(83)
  {
    LineEightwoThree("eightwothree");
  }

  lemma ExampleAbcOneTwoThreeXyz()
    ensures CalibrationValue("abcone2threexyz") == Some(13)
  {
    LineAbcOneTwoThreeXyz("abcone2threexyz");
  }

  lemma ExampleXTwoneThreeFour()
    ensures CalibrationValue("xtwone3four") == Some(24)
  {
    LineXTwoneThreeFour("xtwone3four");
  }

  lemma ExampleFourNineEightSevenTwo()
    ensures CalibrationValue("4nineeightseven2") == Some(42)
  {
    LineFourNineEightSevenTwo("4nineeightseven2");
  }

  lemma ExampleZOneightTwoThreeFour()
    ensures CalibrationValue("zoneight234") == Some(14)
  {
    LineZOneightTwoThreeFour("zoneight234");
  }

  lemma ExampleSevenPqrstSixteen()
    ensures CalibrationValue("7pqrstsixteen") == Some(76)
  {
    LineSevenPqrstSixteen("7pqrstsixteen");
  }

  /** The seven lines of the worked example and the values the script finds in them. */
  const ExampleLines: seq<string> :=
    ["two1nine", "eightwothree", "abcone2threexyz", "xtwone3four", "4nineeightseven2", "zoneight234", "7pqrstsixteen"]
  const ExampleValues: seq<nat> := [29, 83, 13, 24, 42, 14, 76]

  lemma ExampleValuesOfLines()
    ensures |ExampleLines| == |ExampleValues|
    ensures forall i :: 0 <= i < |ExampleLines| ==> CalibrationValue(ExampleLines[i]) == Some(ExampleValues[i])
  {
    forall i | 0 <= i < |ExampleLines|
      ensures CalibrationValue(ExampleLines[i]) == Some(ExampleValues[i])
    {
      if i == 0 { ExampleTwoOneNine(); }
      else if i == 1 { ExampleEightwoThree(); }
      else if i == 2 { ExampleAbcOneTwoThreeXyz(); }
      else if i == 3 { ExampleXTwoneThreeFour(); }
      else if i == 4 { ExampleFourNineEightSevenTwo(); }
      else if i == 5 { ExampleZOneightTwoThreeFour(); }
      else { ExampleSevenPqrstSixteen(); }
    }
  }

  /** The seven values add up to 281. */
  lemma ExampleTotal()
    ensures SumValues(ExampleLines) == Some(281)
  {
    ExampleValuesOfLines();
    SumOfDefined(ExampleLines, ExampleValues);
    assert Sum(ExampleValues) == 281;
  }

  /** The file holding the seven lines, one per line, totals 281. */
  lemma ExampleFileTotal()
    ensures Total(Join(ExampleLines, '\n')) == Some(281)
  {
    assert forall i :: 0 <= i < |ExampleLines| ==> |ExampleLines[i]| > 0 && '\n' !in ExampleLines[i];
    TotalOfLines(ExampleLines);
    ExampleTotal();
  }
}
