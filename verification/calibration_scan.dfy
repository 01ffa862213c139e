/** What the sandwich rewrite of `1.js` achieves: the decimal digits of
    `replaceAlphaDigit(line)` are exactly the digits a left-to-right
    reading of the original line finds, where each position contributes
    its digit character or the digit of the word that begins there.
    Overlapping words such as "twone" or "oneight" both count, no digit
    is invented, and no digit is lost. */
module CalibrationScan {
  import opened Wrappers
  import opened Strings
  import opened Calibration

  // ---------------------------------------------------------------------
  // The positional reading

  /** The digit of the first word, among words `k` and later, that `t`
      begins with; empty if it begins with none of them. */
  function WordDigitFrom(t: string, k: nat): string
    requires k <= |Words|
    decreases |Words| - k
  {
    if k == |Words| then []
    else if IsPrefix(Words[k], t) then [DigitChar(k + 1)]
    else WordDigitFrom(t, k + 1)
  }

  /** What the first position of `t` contributes when words before `k` no
      longer count. */
  function HeadDigit(t: string, k: nat): string
    requires |t| > 0 && k <= |Words|
  {
    if IsDigit(t[0]) then [t[0]] else WordDigitFrom(t, k)
  }

  /** The digits read at every position of `t`, counting words `k` and later. */
  function ScanFrom(t: string, k: nat): string
    requires k <= |Words|
    decreases |t|
  {
    if |t| == 0 then [] else HeadDigit(t, k) + ScanFrom(t[1..], k)
  }

  lemma {:induction false} WordDigitIsDigit(t: string, k: nat)
    requires k <= |Words|
    ensures AllDigits(WordDigitFrom(t, k))
    decreases |Words| - k
  {
    if k < |Words| && !IsPrefix(Words[k], t) {
      WordDigitIsDigit(t, k + 1);
    }
  }

  lemma {:induction false} ScanIsDigits(t: string, k: nat)
    requires k <= |Words|
    ensures AllDigits(ScanFrom(t, k))
    decreases |t|
  {
    if |t| > 0 {
      WordDigitIsDigit(t, k);
      ScanIsDigits(t[1..], k);
    }
  }

  /** The digits of a line read position by position: a digit character,
      or the digit of a word that starts at that position. */
  function ScanDigits(line: string): (r: string)
    ensures AllDigits(r)
  {
    ScanIsDigits(line, 0);
    ScanFrom(line, 0)
  }

  /** The contributions of the positions of `p` inside the text `p + y`. */
  function HeadsOver(p: string, y: string, k: nat): string
    requires k <= |Words|
    decreases |p|
  {
    if |p| == 0 then [] else HeadDigit(p + y, k) + HeadsOver(p[1..], y, k)
  }

  lemma {:induction false} ScanConcat(p: string, y: string, k: nat)
    requires k <= |Words|
    ensures ScanFrom(p + y, k) == HeadsOver(p, y, k) + ScanFrom(y, k)
    decreases |p|
  {
    if |p| == 0 {
      assert p + y == y;
    } else {
      assert (p + y)[1..] == p[1..] + y;
      ScanConcat(p[1..], y, k);
    }
  }

  lemma {:induction false} WordDigitNone(t: string, j: nat)
    requires j <= |Words|
    requires forall i :: j <= i < |Words| ==> !IsPrefix(Words[i], t)
    ensures WordDigitFrom(t, j) == []
    decreases |Words| - j
  {
    if j < |Words| {
      WordDigitNone(t, j + 1);
    }
  }

  // ---------------------------------------------------------------------
  // Facts about the nine words

  /** The first two letters of word `k` occur in word `j` only as the start of word `k`. */
  lemma BigramUnique(j: nat, i: nat, k: nat)
    requires j < |Words| && k < |Words| && i + 1 < |Words[j]|
    requires Words[j][i] == Words[k][0] && Words[j][i + 1] == Words[k][1]
    ensures j == k && i == 0
  {
  }

  lemma WordLetters(k: nat, i: nat)
    requires k < |Words| && i < |Words[k]|
    ensures !IsDigit(Words[k][i])
  {
  }

  lemma WordEnds(k: nat)
    requires k < |Words|
    ensures |Words[k]| >= 3 && Words[k][0] != Words[k][|Words[k]| - 1]
  {
  }

  /** No word overlaps a later position of itself, so `replaceAll` misses none of its occurrences. */
  lemma NoSelfOverlap(k: nat, o: nat, x: string)
    requires k < |Words| && 0 < o < |Words[k]|
    ensures !IsPrefix(Words[k], Words[k][o..] + x)
  {
    var w := Words[k];
    WordEnds(k);
    if IsPrefix(w, w[o..] + x) {
      assert w[0] == (w[o..] + x)[0] == w[o];
      if o + 1 < |w| {
        assert w[1] == (w[o..] + x)[1] == w[o + 1];
        BigramUnique(k, o, k);
      }
    }
  }

  /** A different word that starts inside word `k` runs past its end. */
  lemma RunsPast(j: nat, k: nat, o: nat, x: string)
    requires j < |Words| && k < |Words| && j != k && o < |Words[k]|
    requires IsPrefix(Words[j], Words[k][o..] + x)
    ensures |Words[j]| > |Words[k]| - o
  {
    var w, v := Words[k], Words[j];
    WordEnds(j);
    if |v| <= |w| - o {
      assert v[0] == (w[o..] + x)[0] == w[o];
      assert v[1] == (w[o..] + x)[1] == w[o + 1];
      BigramUnique(k, o, j);
    }
  }

  /** No word occurs inside another. */
  lemma NotInside(j: nat, k: nat, i: nat)
    requires j < |Words| && k < |Words| && j != k
    ensures !OccursAt(Words[j], Words[k], i)
  {
    var w, v := Words[k], Words[j];
    WordEnds(k);
    if OccursAt(v, w, i) {
      assert v[i] == v[i..i + |w|][0] == w[0];
      assert v[i + 1] == v[i..i + |w|][1] == w[1];
      BigramUnique(j, i, k);
    }
  }

  // ---------------------------------------------------------------------
  // How far `replaceAll` leaves a text alone

  /** Up to the end of the first occurrence, the rewrite copies the text. */
  lemma {:induction false} AgreeBeforeOccurrence(t: string, w: string, rep: string, n: nat)
    requires |w| > 0 && IsPrefix(w, rep) && n <= |t|
    requires forall i :: 0 <= i && i + |w| <= n ==> !OccursAt(t, w, i)
    ensures n <= |ReplaceAll(t, w, rep)| && ReplaceAll(t, w, rep)[..n] == t[..n]
    decreases |t|
  {
    if |t| > 0 {
      if IsPrefix(w, t) {
        assert OccursAt(t, w, 0);
      } else if n > 0 {
        forall i | 0 <= i && i + |w| <= n - 1 ensures !OccursAt(t[1..], w, i) {
          assert !OccursAt(t, w, i + 1);
          assert t[1..][i..i + |w|] == t[i + 1..i + 1 + |w|];
        }
        AgreeBeforeOccurrence(t[1..], w, rep, n - 1);
        assert t[..n] == [t[0]] + t[1..][..n - 1];
      }
    }
  }

  /** A text starting with the word is rewritten to the replacement, then the rest. */
  lemma InsertedAfterWord(t: string, w: string, rep: string)
    requires |w| > 0 && IsPrefix(w, t) && |rep| > |w|
    ensures ReplaceAll(t, w, rep)[|w|] == rep[|w|]
  {
    assert ReplaceAll(t, w, rep) == rep + ReplaceAll(t[|w|..], w, rep);
  }

  /** Up to the first inserted digit, the rewrite copies the text. */
  lemma {:induction false} AgreeBeforeInsert(t: string, w: string, rep: string, m: nat)
    requires |w| > 0 && IsPrefix(w, rep) && |rep| > |w|
    requires m <= |ReplaceAll(t, w, rep)|
    requires forall i :: 0 <= i < m ==> ReplaceAll(t, w, rep)[i] != rep[|w|]
    ensures m <= |t| && t[..m] == ReplaceAll(t, w, rep)[..m]
    decreases |t|
  {
    var r := ReplaceAll(t, w, rep);
    if |t| > 0 && m > 0 {
      if IsPrefix(w, t) {
        assert r == rep + ReplaceAll(t[|w|..], w, rep);
        if m > |w| {
          InsertedAfterWord(t, w, rep);
          assert false;
        }
        assert r[..m] == rep[..m];
      } else {
        var r' := ReplaceAll(t[1..], w, rep);
        assert r == [t[0]] + r';
        forall i | 0 <= i < m - 1 ensures r'[i] != rep[|w|] {
          assert r'[i] == r[i + 1];
        }
        AgreeBeforeInsert(t[1..], w, rep, m - 1);
        assert t[..m] == [t[0]] + t[1..][..m - 1];
        assert r[..m] == [t[0]] + r'[..m - 1];
      }
    }
  }

  /** If a word other than word `k` starts the rewritten text behind a
      prefix, it started the original text there: it holds no digit, so it
      ends before the first inserted one. */
  lemma PrefixThroughBack(p: string, x: string, k: nat, j: nat)
    requires k < |Words| && j < |Words| && j != k
    requires |Words[j]| > |p|
    requires IsPrefix(Words[j], p + ReplaceAll(x, Words[k], Sandwich(k)))
    ensures IsPrefix(Words[j], p + x)
  {
    var v, w := Words[j], Words[k];
    assert Sandwich(k)[|w|] == DigitChar(k + 1);
    forall i | 0 <= i < |v| ensures v[i] != Sandwich(k)[|w|] {
      WordLetters(j, i);
    }
    PrefixBeforeInsert(p, x, v, w, Sandwich(k));
  }

  /** A text without the first character `replaceAll` inserts, found behind
      a prefix of the rewritten text, was there before the rewrite. */
  lemma PrefixBeforeInsert(p: string, x: string, v: string, w: string, rep: string)
    requires |w| > 0 && IsPrefix(w, rep) && |rep| > |w| && |v| > |p|
    requires forall i :: 0 <= i < |v| ==> v[i] != rep[|w|]
    requires IsPrefix(v, p + ReplaceAll(x, w, rep))
    ensures IsPrefix(v, p + x)
  {
    var r := ReplaceAll(x, w, rep);
    var m := |v| - |p|;
    assert r[..m] == v[|p|..] by {
      assert (p + r)[..|v|] == p + r[..m];
    }
    forall i | 0 <= i < m ensures r[i] != rep[|w|] {
      assert r[i] == v[|p| + i];
    }
    AgreeBeforeInsert(x, w, rep, m);
    assert (p + x)[..|v|] == p + x[..m];
  }

  /** If a word other than word `k` starts the original text behind a
      prefix, it still starts it after the rewrite: it holds no full
      occurrence of word `k`, so it ends before any rewrite takes effect. */
  lemma PrefixThroughForth(p: string, x: string, k: nat, j: nat)
    requires k < |Words| && j < |Words| && j != k
    requires |Words[j]| > |p|
    requires IsPrefix(Words[j], p + x)
    ensures IsPrefix(Words[j], p + ReplaceAll(x, Words[k], Sandwich(k)))
  {
    forall i ensures !OccursAt(Words[j], Words[k], i) {
      NotInside(j, k, i);
    }
    PrefixBeforeOccurrence(p, x, Words[j], Words[k], Sandwich(k));
  }

  /** A text holding no occurrence of `w`, found behind a prefix of the
      original text, is still there after the rewrite. */
  lemma PrefixBeforeOccurrence(p: string, x: string, v: string, w: string, rep: string)
    requires |w| > 0 && IsPrefix(w, rep) && |v| > |p|
    requires forall i :: !OccursAt(v, w, i)
    requires IsPrefix(v, p + x)
    ensures IsPrefix(v, p + ReplaceAll(x, w, rep))
  {
    var r := ReplaceAll(x, w, rep);
    var m := |v| - |p|;
    assert x[..m] == v[|p|..] by {
      assert (p + x)[..|v|] == p + x[..m];
    }
    forall i | 0 <= i && i + |w| <= m ensures !OccursAt(x, w, i) {
      assert x[..m][i..i + |w|] == x[i..i + |w|];
      assert v[|p|..][i..i + |w|] == v[|p| + i..|p| + i + |w|];
      assert !OccursAt(v, w, |p| + i);
    }
    AgreeBeforeOccurrence(x, w, rep, m);
    assert (p + r)[..|v|] == p + r[..m];
  }

  /** A word other than word `k` starts a text behind a fixed prefix exactly
      when it does so after word `k` has been rewritten. */
  lemma PrefixThrough(p: string, x: string, k: nat, j: nat)
    requires k < |Words| && j < |Words| && j != k
    ensures IsPrefix(Words[j], p + ReplaceAll(x, Words[k], Sandwich(k))) <==> IsPrefix(Words[j], p + x)
  {
    var v := Words[j];
    var r := ReplaceAll(x, Words[k], Sandwich(k));
    if |v| <= |p| {
      assert (p + r)[..|v|] == p[..|v|] == (p + x)[..|v|];
    } else {
      if IsPrefix(v, p + r) {
        PrefixThroughBack(p, x, k, j);
      }
      if IsPrefix(v, p + x) {
        PrefixThroughForth(p, x, k, j);
      }
    }
  }

  lemma {:induction false} WordDigitThrough(p: string, x: string, k: nat, j: nat)
    requires k < j <= |Words|
    ensures WordDigitFrom(p + ReplaceAll(x, Words[k], Sandwich(k)), j) == WordDigitFrom(p + x, j)
    decreases |Words| - j
  {
    if j < |Words| {
      PrefixThrough(p, x, k, j);
      WordDigitThrough(p, x, k, j + 1);
    }
  }

  // ---------------------------------------------------------------------
  // One pass of the rewrite

  /** The first copy of a sandwiched word, followed by its digit, reads as nothing. */
  lemma {:induction false} FirstCopyQuiet(k: nat, o: nat, y: string)
    requires k < |Words| && o <= |Words[k]|
    ensures HeadsOver(Words[k][o..], [DigitChar(k + 1)] + y, k + 1) == []
    decreases |Words[k]| - o
  {
    var w, c := Words[k], DigitChar(k + 1);
    if o < |w| {
      var t := w[o..] + ([c] + y);
      WordLetters(k, o);
      forall j | k + 1 <= j < |Words| ensures !IsPrefix(Words[j], t) {
        if IsPrefix(Words[j], t) {
          RunsPast(j, k, o, [c] + y);
          assert Words[j][|w| - o] == t[|w| - o] == c;
          WordLetters(j, |w| - o);
        }
      }
      WordDigitNone(t, k + 1);
      assert w[o..][1..] == w[o + 1..];
      FirstCopyQuiet(k, o + 1, y);
    }
  }

  /** The second copy of a sandwiched word does not read as a later word. */
  lemma SecondCopyStart(k: nat, y: string)
    requires k < |Words|
    ensures HeadDigit(Words[k] + y, k + 1) == []
  {
    var w := Words[k];
    WordEnds(k);
    WordLetters(k, 0);
    forall j | k + 1 <= j < |Words| ensures !IsPrefix(Words[j], w + y) {
      if IsPrefix(Words[j], w + y) {
        assert w[0..] == w;
        RunsPast(j, k, 0, y);
        assert Words[j][0..|w|] == (w + y)[..|w|] == w;
        NotInside(j, k, 0);
      }
    }
    WordDigitNone(w + y, k + 1);
  }

  /** Past its first letter, the second copy reads as the original word did. */
  lemma SecondCopyRest(k: nat, x: string)
    requires k < |Words|
    ensures HeadsOver(Words[k][1..], ReplaceAll(x, Words[k], Sandwich(k)), k + 1)
         == HeadsOver(Words[k][1..], x, k)
  {
    var w := Words[k];
    var r := ReplaceAll(x, w, Sandwich(k));
    var p := w[1..];
    forall o | 0 <= o < |p| ensures HeadDigit(p[o..] + r, k + 1) == HeadDigit(p[o..] + x, k) {
      assert p[o..] == w[1 + o..];
      SecondCopyHead(k, 1 + o, x);
    }
    HeadsOverAgree(p, r, k + 1, x, k);
  }

  /** Two readings of the positions of `p` agree when they agree position
      by position. */
  lemma {:induction false} HeadsOverAgree(p: string, y: string, k: nat, y': string, k': nat)
    requires k <= |Words| && k' <= |Words|
    requires forall o :: 0 <= o < |p| ==> HeadDigit(p[o..] + y, k) == HeadDigit(p[o..] + y', k')
    ensures HeadsOver(p, y, k) == HeadsOver(p, y', k')
    decreases |p|
  {
    if |p| > 0 {
      forall o | 0 <= o < |p| - 1 ensures HeadDigit(p[1..][o..] + y, k) == HeadDigit(p[1..][o..] + y', k') {
        assert p[1..][o..] == p[o + 1..];
      }
      HeadsOverAgree(p[1..], y, k, y', k');
      assert p[0..] == p;
      HeadsOverStep(p, y, k, y', k');
    }
  }

  lemma HeadsOverStep(p: string, y: string, k: nat, y': string, k': nat)
    requires |p| > 0 && k <= |Words| && k' <= |Words|
    requires HeadDigit(p + y, k) == HeadDigit(p + y', k')
    requires HeadsOver(p[1..], y, k) == HeadsOver(p[1..], y', k')
    ensures HeadsOver(p, y, k) == HeadsOver(p, y', k')
  {
  }

  /** A position inside the second copy, past its first letter, reads after
      the pass as it did before it. */
  lemma SecondCopyHead(k: nat, o: nat, x: string)
    requires k < |Words| && 1 <= o < |Words[k]|
    ensures HeadDigit(Words[k][o..] + ReplaceAll(x, Words[k], Sandwich(k)), k + 1)
         == HeadDigit(Words[k][o..] + x, k)
  {
    var w := Words[k];
    var r := ReplaceAll(x, w, Sandwich(k));
    var p := w[o..];
    WordLetters(k, o);
    assert (p + r)[0] == w[o] == (p + x)[0];
    NoSelfOverlap(k, o, x);
    assert WordDigitFrom(p + x, k) == WordDigitFrom(p + x, k + 1);
    WordDigitThrough(p, x, k, k + 1);
  }

  /** A text starting with word `k` is rewritten to the sandwich, then the rewritten rest. */
  lemma RewriteAtWord(k: nat, t': string)
    requires k < |Words|
    ensures ReplaceAll(Words[k] + t', Words[k], Sandwich(k))
         == Words[k] + ([DigitChar(k + 1)] + (Words[k] + ReplaceAll(t', Words[k], Sandwich(k))))
  {
    var w := Words[k];
    assert IsPrefix(w, w + t');
    assert (w + t')[|w|..] == t';
  }

  /** The digit and second copy of a sandwich read as the digit, then the
      second copy from its second letter on. */
  lemma DigitThenSecondCopy(k: nat, r': string)
    requires k < |Words|
    ensures ScanFrom([DigitChar(k + 1)] + (Words[k] + r'), k + 1)
         == [DigitChar(k + 1)] + HeadsOver(Words[k][1..], r', k + 1) + ScanFrom(r', k + 1)
  {
    SecondCopyStart(k, r');
    DigitThenSilent(DigitChar(k + 1), Words[k], r', k + 1);
  }

  /** A digit followed by a text whose first position reads nothing. */
  lemma DigitThenSilent(c: char, p: string, y: string, k: nat)
    requires k <= |Words| && IsDigit(c) && |p| > 0 && HeadDigit(p + y, k) == []
    ensures ScanFrom([c] + (p + y), k) == [c] + HeadsOver(p[1..], y, k) + ScanFrom(y, k)
  {
    ScanAfterDigit(c, p + y, k);
    SilentHead(p, y, k);
    ConcatAssoc([c], HeadsOver(p[1..], y, k), ScanFrom(y, k));
  }

  lemma ScanAfterDigit(c: char, u: string, k: nat)
    requires k <= |Words| && IsDigit(c)
    ensures ScanFrom([c] + u, k) == [c] + ScanFrom(u, k)
  {
    assert ([c] + u)[1..] == u;
  }

  /** A text whose first position reads nothing. */
  lemma SilentHead(p: string, y: string, k: nat)
    requires k <= |Words| && |p| > 0 && HeadDigit(p + y, k) == []
    ensures ScanFrom(p + y, k) == HeadsOver(p[1..], y, k) + ScanFrom(y, k)
  {
    var heads := HeadsOver(p[1..], y, k);
    assert HeadsOver(p, y, k) == heads by {
      assert HeadsOver(p, y, k) == [] + heads;
    }
    ScanConcat(p, y, k);
  }

  /** How the rewritten form of a text starting with word `k` reads: the
      first copy is silent, the digit reads as itself, the second copy
      reads from its second letter on. */
  lemma RewrittenWordReading(k: nat, t': string)
    requires k < |Words|
    ensures var r' := ReplaceAll(t', Words[k], Sandwich(k));
            ScanFrom(ReplaceAll(Words[k] + t', Words[k], Sandwich(k)), k + 1)
            == [DigitChar(k + 1)] + HeadsOver(Words[k][1..], r', k + 1) + ScanFrom(r', k + 1)
  {
    var w, c := Words[k], DigitChar(k + 1);
    var r' := ReplaceAll(t', w, Sandwich(k));
    RewriteAtWord(k, t');
    ScanConcat(w, [c] + (w + r'), k + 1);
    assert w[0..] == w;
    FirstCopyQuiet(k, 0, w + r');
    DigitThenSecondCopy(k, r');
  }

  /** How a text starting with word `k` reads before the pass: the word's
      digit, then the word from its second letter on. */
  lemma OriginalWordReading(k: nat, t': string)
    requires k < |Words|
    ensures ScanFrom(Words[k] + t', k) == [DigitChar(k + 1)] + HeadsOver(Words[k][1..], t', k) + ScanFrom(t', k)
  {
    var w := Words[k];
    ScanConcat(w, t', k);
    WordLetters(k, 0);
    assert IsPrefix(w, w + t');
    assert HeadDigit(w + t', k) == [DigitChar(k + 1)];
    assert HeadsOver(w, t', k) == HeadDigit(w + t', k) + HeadsOver(w[1..], t', k);
  }

  /** A text that starts with word `k`: the word is read once as its digit
      before the pass, and as the inserted digit after it. */
  lemma SandwichReadsAsWord(k: nat, t': string)
    requires k < |Words|
    requires ScanFrom(ReplaceAll(t', Words[k], Sandwich(k)), k + 1) == ScanFrom(t', k)
    ensures ScanFrom(ReplaceAll(Words[k] + t', Words[k], Sandwich(k)), k + 1) == ScanFrom(Words[k] + t', k)
  {
    RewrittenWordReading(k, t');
    OriginalWordReading(k, t');
    SecondCopyRest(k, t');
  }

  /** A text that does not start with word `k`: its first position reads
      the same before and after the pass. */
  lemma FirstPositionThroughPass(t: string, k: nat)
    requires k < |Words| && |t| > 0 && !IsPrefix(Words[k], t)
    requires ScanFrom(ReplaceAll(t[1..], Words[k], Sandwich(k)), k + 1) == ScanFrom(t[1..], k)
    ensures ScanFrom(ReplaceAll(t, Words[k], Sandwich(k)), k + 1) == ScanFrom(t, k)
  {
    var r := ReplaceAll(t, Words[k], Sandwich(k));
    assert r == [t[0]] + ReplaceAll(t[1..], Words[k], Sandwich(k));
    assert r[1..] == ReplaceAll(t[1..], Words[k], Sandwich(k));
    if !IsDigit(t[0]) {
      WordDigitThrough([t[0]], t[1..], k, k + 1);
      assert [t[0]] + t[1..] == t;
    }
  }

  /** One `replaceAll` pass turns every occurrence of word `k` into its digit
      character without changing what the positional reading finds. */
  lemma {:induction false} ReplaceAllPreservesScan(t: string, k: nat)
    requires k < |Words|
    ensures ScanFrom(ReplaceAll(t, Words[k], Sandwich(k)), k + 1) == ScanFrom(t, k)
    decreases |t|
  {
    var w := Words[k];
    if |t| == 0 {
    } else if IsPrefix(w, t) {
      ReplaceAllPreservesScan(t[|w|..], k);
      SandwichReadsAsWord(k, t[|w|..]);
      assert w + t[|w|..] == t;
    } else {
      ReplaceAllPreservesScan(t[1..], k);
      FirstPositionThroughPass(t, k);
    }
  }

  lemma {:induction false} ReplaceWordsFromPreservesScan(s: string, k: nat)
    requires k <= |Words|
    ensures ScanFrom(ReplaceWordsFrom(s, k), |Words|) == ScanFrom(s, k)
    decreases |Words| - k
  {
    if k < |Words| {
      var t := ReplaceAll(s, Words[k], Sandwich(k));
      ReplaceAllPreservesScan(s, k);
      ReplaceWordsFromPreservesScan(t, k + 1);
    } else {
      assert ReplaceWordsFrom(s, k) == s;
    }
  }

  /** Once no word counts any more, the reading is the plain `\d` match. */
  lemma {:induction false} ScanWithoutWords(t: string)
    ensures ScanFrom(t, |Words|) == Digits(t)
    decreases |t|
  {
    if |t| > 0 {
      ScanWithoutWords(t[1..]);
      assert WordDigitFrom(t, |Words|) == [];
    }
  }

  // ---------------------------------------------------------------------
  // Consequences

  /** The digits matched after `replaceAlphaDigit` are exactly the digits
      of the positional reading of the original line. */
  lemma RewriteReadsPositionally(line: string)
    ensures Digits(ReplaceAlphaDigit(line)) == ScanDigits(line)
  {
    ReplaceWordsFromPreservesScan(line, 0);
    ScanWithoutWords(ReplaceAlphaDigit(line));
  }

  /** The value of a line is built from the first and the last digit the
      positional reading finds, and is `NaN` exactly when it finds none. */
  lemma ValueFromPositionalReading(line: string)
    ensures CalibrationValue(line) == FirstLastValue(ScanDigits(line))
    ensures CalibrationValue(line).None? <==> |ScanDigits(line)| == 0
  {
    RewriteReadsPositionally(line);
  }

  lemma {:induction false} ScanZeros(t: string, k: nat)
    requires k <= |Words|
    ensures multiset(ScanFrom(t, k))['0'] == multiset(Digits(t))['0']
    decreases |t|
  {
    if |t| > 0 {
      ScanZeros(t[1..], k);
      if !IsDigit(t[0]) {
        WordDigitOneToNine(t, k);
      }
    }
  }

  lemma {:induction false} WordDigitOneToNine(t: string, k: nat)
    requires k <= |Words|
    ensures forall i :: 0 <= i < |WordDigitFrom(t, k)| ==> '1' <= WordDigitFrom(t, k)[i] <= '9'
    ensures |WordDigitFrom(t, k)| <= 1
    decreases |Words| - k
  {
    if k < |Words| && !IsPrefix(Words[k], t) {
      WordDigitOneToNine(t, k + 1);
    }
  }

  /** The rewrite inserts digits 1 to 9 only: the rewritten line holds as
      many zeros as the original, and every original digit is kept in order. */
  lemma RewriteAddsNoZero(line: string)
    ensures multiset(Digits(ReplaceAlphaDigit(line)))['0'] == multiset(Digits(line))['0']
    ensures IsSubseq(Digits(line), Digits(ReplaceAlphaDigit(line)))
  {
    RewriteReadsPositionally(line);
    ScanZeros(line, 0);
    LiteralDigitsKept(line);
  }
}
