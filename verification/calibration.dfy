/** The calibration extractor of `1.js`.

    Each spelled-out digit word `w` of the table is replaced, word after
    word, by the sandwich `w d w` where `d` is its digit; the decimal digits
    of the rewritten line are collected and the first and last of them form
    a two-digit number; the numbers of all non-empty lines are added up. */
module Calibration {
  import opened Wrappers
  import opened Strings

  /** The nine digit words in the order the `alphaDigitMap` table lists
      (and `forEach` visits) them: word `k` stands for digit `k + 1`. */
  const Words: seq<string> := ["one", "two", "three", "four", "five", "six", "seven", "eight", "nine"]

  /** The text that replaces word `k`: the word, its digit, the word again. */
  function Sandwich(k: nat): string
    requires k < |Words|
  {
    Words[k] + [DigitChar(k + 1)] + Words[k]
  }

  /** `s.replaceAll(w, rep)` for a non-empty literal `w`: scan from the
      left, replace each occurrence and resume after it. */
  function ReplaceAll(s: string, w: string, rep: string): string
    requires |w| > 0
    decreases |s|
  {
    if |s| == 0 then s
    else if IsPrefix(w, s) then rep + ReplaceAll(s[|w|..], w, rep)
    else [s[0]] + ReplaceAll(s[1..], w, rep)
  }

  /** The `forEach` loop of `replaceAlphaDigit` from word `k` on. */
  function ReplaceWordsFrom(s: string, k: nat): string
    requires k <= |Words|
    decreases |Words| - k
  {
    if k == |Words| then s
    else ReplaceWordsFrom(ReplaceAll(s, Words[k], Sandwich(k)), k + 1)
  }

  function ReplaceAlphaDigit(line: string): string {
    ReplaceWordsFrom(line, 0)
  }

  /** `s.match(/\d/g)`: the decimal digits of `s`, left to right. */
  function Digits(s: string): (ds: string)
    ensures AllDigits(ds)
  {
    if |s| == 0 then []
    else if IsDigit(s[0]) then [s[0]] + Digits(s[1..])
    else Digits(s[1..])
  }

  /** The number `parseInt` reads from the first and last digit of a digit
      sequence; `None` is the `NaN` of a line without any digit. */
  function FirstLastValue(ds: string): (r: Option<nat>)
    requires AllDigits(ds)
    ensures r.None? <==> |ds| == 0
    ensures r.Some? ==> r.value <= 99
    ensures r.Some? ==> r.value / 10 == DigitValue(ds[0]) && r.value % 10 == DigitValue(ds[|ds| - 1])
    ensures |ds| == 1 ==> r == Some(11 * DigitValue(ds[0]))
  {
    if |ds| == 0 then None
    else Some(10 * DigitValue(ds[0]) + DigitValue(ds[|ds| - 1]))
  }

  /** The entry `nums` holds for one line. */
  function CalibrationValue(line: string): Option<nat> {
    FirstLastValue(Digits(ReplaceAlphaDigit(line)))
  }

  /** `lines.map(...)`: the entries of `nums`, one per line. */
  function Values(lines: seq<string>): seq<Option<nat>> {
    seq(|lines|, i requires 0 <= i < |lines| => CalibrationValue(lines[i]))
  }

  /** `reduce((acc, num) => acc + num, 0)`; a single `NaN` entry makes the
      sum `NaN`. The sum is taken from the right, which `AddOptAssoc` shows
      is the same. */
  function SumOpts(vs: seq<Option<nat>>): Option<nat>
    decreases |vs|
  {
    if |vs| == 0 then Some(0) else AddOpt(vs[0], SumOpts(vs[1..]))
  }

  /** The sum `1.js` computes over its lines. */
  function SumValues(lines: seq<string>): Option<nat> {
    SumOpts(Values(lines))
  }

  /** The number the script prints for the text of its input file. */
  function Total(text: string): Option<nat> {
    SumValues(Lines(text))
  }

  // ---------------------------------------------------------------------
  // The rewrite only inserts

  /** `replaceAll` with a replacement that begins with the word keeps every
      character of the input, in order. */
  lemma {:induction false} ReplaceAllKeepsInput(s: string, w: string, rep: string)
    requires |w| > 0 && IsPrefix(w, rep)
    ensures IsSubseq(s, ReplaceAll(s, w, rep))
    decreases |s|
  {
    if |s| == 0 {
    } else if IsPrefix(w, s) {
      ReplaceAllKeepsInput(s[|w|..], w, rep);
      assert w == rep[..|w|];
      SubseqAppend(w, rep[|w|..]);
      assert w + rep[|w|..] == rep;
      SubseqConcat(w, rep, s[|w|..], ReplaceAll(s[|w|..], w, rep));
      assert w + s[|w|..] == s;
    } else {
      ReplaceAllKeepsInput(s[1..], w, rep);
      SubseqConcat([s[0]], [s[0]], s[1..], ReplaceAll(s[1..], w, rep));
      assert [s[0]] + s[1..] == s;
    }
  }

  lemma {:induction false} ReplaceWordsFromKeepsInput(s: string, k: nat)
    requires k <= |Words|
    ensures IsSubseq(s, ReplaceWordsFrom(s, k))
    decreases |Words| - k
  {
    if k == |Words| {
      SubseqRefl(s);
    } else {
      var t := ReplaceAll(s, Words[k], Sandwich(k));
      ReplaceAllKeepsInput(s, Words[k], Sandwich(k));
      ReplaceWordsFromKeepsInput(t, k + 1);
      SubseqTrans(s, t, ReplaceWordsFrom(t, k + 1));
    }
  }

  /** `replaceAlphaDigit` only inserts characters: the original line is a
      subsequence of the rewritten one, so no rewrite destroys the text a
      later word (or a literal digit) is read from. */
  lemma ReplaceAlphaDigitKeepsLine(line: string)
    ensures IsSubseq(line, ReplaceAlphaDigit(line))
  {
    ReplaceWordsFromKeepsInput(line, 0);
  }

  /** `match(/\d/g)` keeps the digits of the text in order and drops
      everything else: each digit character occurs as often in the result
      as in the text. */
  lemma {:induction false} DigitsExactly(s: string)
    ensures IsSubseq(Digits(s), s)
    ensures forall c :: IsDigit(c) ==> multiset(Digits(s))[c] == multiset(s)[c]
    decreases |s|
  {
    if |s| > 0 {
      DigitsExactly(s[1..]);
      assert s == [s[0]] + s[1..];
      assert multiset(s) == multiset{s[0]} + multiset(s[1..]);
      if IsDigit(s[0]) {
        var ds := Digits(s);
        assert ds[0] == s[0] && ds[1..] == Digits(s[1..]);
        assert ds == [s[0]] + Digits(s[1..]);
        assert multiset(ds) == multiset{s[0]} + multiset(Digits(s[1..]));
      } else {
        forall c | IsDigit(c) ensures multiset(Digits(s))[c] == multiset(s)[c] {
          assert c != s[0];
        }
      }
    }
  }

  /** Collecting digits respects the subsequence order. */
  lemma {:induction false} DigitsMonotone(a: string, b: string)
    requires IsSubseq(a, b)
    ensures IsSubseq(Digits(a), Digits(b))
    decreases |b|
  {
    if |a| == 0 {
    } else if a[0] == b[0] && IsSubseq(a[1..], b[1..]) {
      DigitsMonotone(a[1..], b[1..]);
      if IsDigit(a[0]) {
        assert Digits(a) == [a[0]] + Digits(a[1..]);
        assert Digits(b) == [b[0]] + Digits(b[1..]);
        SubseqConcat([a[0]], [b[0]], Digits(a[1..]), Digits(b[1..]));
        SubseqRefl([a[0]]);
      }
    } else {
      DigitsMonotone(a, b[1..]);
      if IsDigit(b[0]) {
        SubseqPrepend([b[0]], Digits(a), Digits(b[1..]));
      }
    }
  }

  /** Every literal digit of the line is still read after the rewrite, in
      the same relative order. */
  lemma LiteralDigitsKept(line: string)
    ensures IsSubseq(Digits(line), Digits(ReplaceAlphaDigit(line)))
  {
    ReplaceAlphaDigitKeepsLine(line);
    DigitsMonotone(line, ReplaceAlphaDigit(line));
  }

  // ---------------------------------------------------------------------
  // Lines without digit words

  lemma {:induction false} ReplaceAllAbsent(s: string, w: string, rep: string)
    requires |w| > 0
    requires forall i :: 0 <= i <= |s| ==> !OccursAt(s, w, i)
    ensures ReplaceAll(s, w, rep) == s
    decreases |s|
  {
    if |s| > 0 {
      assert !OccursAt(s, w, 0);
      assert !IsPrefix(w, s);
      forall i | 0 <= i <= |s| - 1 ensures !OccursAt(s[1..], w, i) {
        assert !OccursAt(s, w, i + 1);
        if i + |w| <= |s| - 1 {
          assert s[1..][i..i + |w|] == s[i + 1..i + 1 + |w|];
        }
      }
      ReplaceAllAbsent(s[1..], w, rep);
      assert [s[0]] + s[1..] == s;
    }
  }

  /** A line containing none of the nine words is returned unchanged. */
  lemma NoWordsUnchanged(line: string)
    requires forall k, i :: 0 <= k < |Words| && 0 <= i <= |line| ==> !OccursAt(line, Words[k], i)
    ensures ReplaceAlphaDigit(line) == line
  {
    var k := 0;
    while k < |Words|
      invariant 0 <= k <= |Words|
      invariant ReplaceWordsFrom(line, 0) == ReplaceWordsFrom(line, k)
    {
      ReplaceAllAbsent(line, Words[k], Sandwich(k));
      k := k + 1;
    }
  }

  // ---------------------------------------------------------------------
  // The sum

  /** The reduce is `NaN` exactly when some entry is. */
  lemma {:induction false} SumOptsUndefined(vs: seq<Option<nat>>)
    ensures SumOpts(vs).None? <==> exists i :: 0 <= i < |vs| && vs[i].None?
    decreases |vs|
  {
    if |vs| > 0 {
      SumOptsUndefined(vs[1..]);
      if vs[0].Some? && SumOpts(vs[1..]).None? {
        var i :| 0 <= i < |vs[1..]| && vs[1..][i].None?;
        assert vs[i + 1].None?;
      }
      if exists i :: 0 <= i < |vs| && vs[i].None? {
        var i :| 0 <= i < |vs| && vs[i].None?;
        if i > 0 {
          assert vs[1..][i - 1].None?;
        }
      }
    }
  }

  /** The sum is `NaN` exactly when some line's value is. */
  lemma SumUndefined(lines: seq<string>)
    ensures SumValues(lines).None? <==> exists i :: 0 <= i < |lines| && CalibrationValue(lines[i]).None?
  {
    var vs := Values(lines);
    SumOptsUndefined(vs);
    if exists i :: 0 <= i < |vs| && vs[i].None? {
      var i :| 0 <= i < |vs| && vs[i].None?;
      assert CalibrationValue(lines[i]).None?;
    }
    if exists i :: 0 <= i < |lines| && CalibrationValue(lines[i]).None? {
      var i :| 0 <= i < |lines| && CalibrationValue(lines[i]).None?;
      assert vs[i].None?;
    }
  }

  lemma {:induction false} SumOptsBounds(vs: seq<Option<nat>>, i: nat)
    requires i < |vs| && SumOpts(vs).Some?
    ensures vs[i].Some? && vs[i].value <= SumOpts(vs).value
    decreases |vs|
  {
    if i > 0 {
      assert vs[1..][i - 1] == vs[i];
      SumOptsBounds(vs[1..], i - 1);
    }
  }

  /** Every value that is a number adds to the sum: with no `NaN`, the sum
      is at least each line's value. */
  lemma SumBoundsEachValue(lines: seq<string>, i: nat)
    requires i < |lines| && SumValues(lines).Some?
    ensures CalibrationValue(lines[i]).Some? && CalibrationValue(lines[i]).value <= SumValues(lines).value
  {
    SumOptsBounds(Values(lines), i);
  }

  lemma {:induction false} SumOptsAppend(a: seq<Option<nat>>, b: seq<Option<nat>>)
    ensures SumOpts(a + b) == AddOpt(SumOpts(a), SumOpts(b))
    decreases |a|
  {
    if |a| == 0 {
      assert a + b == b;
    } else {
      assert (a + b)[0] == a[0] && (a + b)[1..] == a[1..] + b;
      SumOptsAppend(a[1..], b);
      AddOptAssoc(a[0], SumOpts(a[1..]), SumOpts(b));
    }
  }

  lemma SumValuesAppend(a: seq<string>, b: seq<string>)
    ensures SumValues(a + b) == AddOpt(SumValues(a), SumValues(b))
  {
    assert Values(a + b) == Values(a) + Values(b);
    SumOptsAppend(Values(a), Values(b));
  }

  lemma {:induction false} SumOptsOfNumbers(vs: seq<Option<nat>>, vals: seq<nat>)
    requires |vs| == |vals| && forall i :: 0 <= i < |vs| ==> vs[i] == Some(vals[i])
    ensures SumOpts(vs) == Some(Sum(vals))
    decreases |vs|
  {
    if |vs| > 0 {
      assert forall i :: 0 <= i < |vs| - 1 ==> vs[1..][i] == vs[i + 1] && vals[1..][i] == vals[i + 1];
      SumOptsOfNumbers(vs[1..], vals[1..]);
    }
  }

  /** Lines that all have a value sum to the sum of their values. */
  lemma SumOfDefined(lines: seq<string>, vals: seq<nat>)
    requires |lines| == |vals|
    requires forall i :: 0 <= i < |lines| ==> CalibrationValue(lines[i]) == Some(vals[i])
    ensures SumValues(lines) == Some(Sum(vals))
  {
    SumOptsOfNumbers(Values(lines), vals);
  }

  /** A file whose lines are all non-empty totals the values of its lines. */
  lemma TotalOfLines(lines: seq<string>)
    requires |lines| >= 1
    requires forall i :: 0 <= i < |lines| ==> |lines[i]| > 0 && '\n' !in lines[i]
    ensures Lines(Join(lines, '\n')) == lines
    ensures Total(Join(lines, '\n')) == SumValues(lines)
  {
    SplitJoin(lines, '\n');
    NonEmptyKeepsAll(lines);
  }

  /** The total of two files joined by a line break is the sum of their
      totals: blank lines and a trailing newline add nothing, and a line
      without any digit poisons the whole sum. */
  lemma TotalAround(a: string, b: string)
    ensures Total(a + "\n" + b) == AddOpt(Total(a), Total(b))
  {
    LinesAround(a, b);
    SumValuesAppend(Lines(a), Lines(b));
  }
}
