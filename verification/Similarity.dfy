/**
 The similarity score of the FAQ matcher: the larger of a Dice score over word sets and an
 edit-distance score, in exact rational arithmetic.
 */
module Similarity {
  import opened Basics
  import opened EditDistance
  import opened TextNormal

  // ----- Word sets -----

  /** `s.split(' ')`: always at least one piece. */
  function Split(s: string, piece: string): seq<string>
    decreases |s|
  {
    if s == "" then [piece]
    else if s[0] == ' ' then [piece] + Split(s[1..], "")
    else Split(s[1..], piece + [s[0]])
  }

  /** The distinct pieces longer than two characters. */
  function Words(s: string): set<string> {
    set w | w in Split(s, "") && |w| > 2
  }

  lemma {:induction false} SplitRuns(s: string, piece: string)
    requires Plain(s) && SingleSpaced(s)
    requires s != "" ==> s[|s| - 1] != ' '
    requires (s == "" || s[0] == ' ') ==> piece != ""
    ensures Split(s, piece) == Runs(s, piece)
    decreases |s|
  {
    if s == "" {
    } else if s[0] == ' ' {
      assert !IsAlnum(' ');
      SplitRuns(s[1..], "");
    } else {
      SplitRuns(s[1..], piece + [s[0]]);
    }
  }

  /** Normalisation does not change which words are compared. */
  lemma WordsOfNormalized(fold: string -> string, s: string)
    ensures Words(Normalize(fold, s)) == set w | w in Runs(fold(s), "") && |w| > 2
  {
    var t := Normalize(fold, s);
    NormalizeIsCanonical(fold, s);
    NormalizeKeepsWords(fold, s);
    if t != "" {
      SplitRuns(t, "");
    } else {
      assert Split(t, "") == [""];
    }
  }

  // ----- The score -----

  function Dice(a: set<string>, b: set<string>): real {
    if a != {} && b != {} then (2 * |a * b|) as real / (|a| + |b|) as real else 0.0
  }

  function EditScore(s1: string, s2: string): real
    requires s1 != "" || s2 != ""
  {
    1.0 - Cost(s1, s2) as real / Max(|s1|, |s2|) as real
  }

  /** The score of two strings that have already been normalised. */
  function Score(s1: string, s2: string): real {
    if s1 == s2 then 1.0
    else if s1 == "" || s2 == "" then 0.0
    else MaxReal(Dice(Words(s1), Words(s2)), EditScore(s1, s2))
  }

  function Similar(fold: string -> string, str1: string, str2: string): real {
    Score(Normalize(fold, str1), Normalize(fold, str2))
  }

  method CountCommon(words1: set<string>, words2: set<string>) returns (intersection: nat)
    ensures intersection == |words1 * words2|
  {
    intersection := 0;
    var rest := words1;
    ghost var seen: set<string> := {};
    while rest != {}
      invariant seen + rest == words1 && seen !! rest
      invariant intersection == |seen * words2|
      decreases rest
    {
      var w :| w in rest;
      if w in words2 {
        intersection := intersection + 1;
        assert (seen + {w}) * words2 == seen * words2 + {w};
      } else {
        assert (seen + {w}) * words2 == seen * words2;
      }
      seen := seen + {w};
      rest := rest - {w};
    }
    assert seen == words1;
  }

  method WordScore(s1: string, s2: string) returns (diceScore: real)
    ensures diceScore == Dice(Words(s1), Words(s2))
  {
    var words1 := Words(s1);
    var words2 := Words(s2);
    diceScore := 0.0;
    if |words1| > 0 && |words2| > 0 {
      var intersection := CountCommon(words1, words2);
      diceScore := (2 * intersection) as real / (|words1| + |words2|) as real;
    }
  }

  method MatrixScore(s1: string, s2: string) returns (levScore: real)
    requires s1 != "" && s2 != ""
    ensures levScore == EditScore(s1, s2)
  {
    var track, distance := FillMatrix(s1, s2);
    var maxLen := Max(|s1|, |s2|);
    levScore := 1.0 - distance as real / maxLen as real;
  }

  method CalculateSimilarity(fold: string -> string, str1: string, str2: string) returns (score: real)
    ensures score == Similar(fold, str1, str2)
  {
    var s1 := Normalize(fold, str1);
    var s2 := Normalize(fold, str2);
    if s1 == s2 { return 1.0; }
    if s1 == "" || s2 == "" { return 0.0; }
    var diceScore := WordScore(s1, s2);
    var levScore := MatrixScore(s1, s2);
    score := MaxReal(diceScore, levScore);
  }

  // ----- Quotients of whole numbers -----

  /** Comparing n/d with p/q by cross-multiplication. */
  lemma QuotientAtLeast(n: int, d: int, p: int, q: int)
    requires d > 0 && q > 0
    ensures n as real / d as real >= p as real / q as real <==> n * q >= p * d
  {
    var x, y := n as real / d as real, p as real / q as real;
    assert x * d as real == n as real && y * q as real == p as real;
    var dq := d as real * q as real;
    assert x * dq == n as real * q as real == (n * q) as real;
    assert y * dq == p as real * d as real == (p * d) as real;
    assert x >= y <==> x * dq >= y * dq;
  }

  lemma ComplementAtLeast(n: int, d: int, p: int, q: int)
    requires d > 0 && q > 0
    ensures 1.0 - n as real / d as real >= p as real / q as real <==> (d - n) * q >= p * d
  {
    QuotientAtLeast(d - n, d, p, q);
    assert 1.0 - n as real / d as real == (d - n) as real / d as real by {
      var x := 1.0 / d as real;
      assert x * d as real == 1.0;
      assert n as real / d as real == n as real * x;
      assert (d - n) as real / d as real == (d - n) as real * x == (d as real - n as real) * x;
    }
  }

  lemma QuotientInUnitInterval(n: int, d: int)
    requires 0 <= n <= d && d > 0
    ensures 0.0 <= n as real / d as real <= 1.0
  {
    QuotientAtLeast(n, d, 0, 1);
    QuotientAtLeast(1, 1, n, d);
    assert 0 as real / 1 as real == 0.0 && 1 as real / 1 as real == 1.0;
  }

  lemma CommonBound(a: set<string>, b: set<string>)
    ensures |a * b| <= |a| && |a * b| <= |b|
    ensures |a * b| == |a| && |a * b| == |b| <==> a == b
  {
    SubsetSize(a * b, a);
    SubsetSize(a * b, b);
    if a == b {
      assert a * b == a;
    }
  }

  lemma {:induction false} SubsetSize(x: set<string>, y: set<string>)
    requires x <= y
    ensures |x| <= |y|
    ensures |x| == |y| ==> x == y
  {
    assert |y| == |x| + |y - x| by {
      assert x + (y - x) == y;
    }
  }

  // ----- Properties of the score -----

  /** Both parts of the score as exact conditions on whole numbers, at any threshold p/q > 0. */
  lemma DiceReaches(a: set<string>, b: set<string>, p: int, q: int)
    requires 0 < p && 0 < q
    ensures Dice(a, b) >= p as real / q as real <==>
              a != {} && b != {} && 2 * |a * b| * q >= p * (|a| + |b|)
  {
    QuotientAtLeast(p, q, 0, 1);
    assert p as real / q as real > 0.0 by { QuotientAtLeast(0, 1, p, q); }
    if a != {} && b != {} {
      QuotientAtLeast(2 * |a * b|, |a| + |b|, p, q);
    }
  }

  lemma EditScoreReaches(s1: string, s2: string, p: int, q: int)
    requires s1 != "" && s2 != "" && 0 < q
    ensures EditScore(s1, s2) >= p as real / q as real <==>
              (Max(|s1|, |s2|) - Cost(s1, s2)) * q >= p * Max(|s1|, |s2|)
  {
    ComplementAtLeast(Cost(s1, s2), Max(|s1|, |s2|), p, q);
  }

  /** Equal strings reach the thresholds up to one by their edit score. */
  lemma EqualByEdits(s: string, p: int, q: int)
    requires s != "" && 0 < p && 0 < q
    ensures (|s| - Cost(s, s)) * q >= p * |s| <==> p <= q
  {
    ZeroOnlyWhenEqual(s, s);
    ScaleUp(|s|, p, q);
  }

  /** Equal word sets reach no threshold above one. */
  lemma EqualByWords(a: set<string>, p: int, q: int)
    requires a != {} && 2 * |a * a| * q >= p * (|a| + |a|)
    ensures p <= q
  {
    assert a * a == a;
    ScaleUp(2 * |a|, p, q);
  }

  lemma ScaleUp(n: int, p: int, q: int)
    requires n > 0
    ensures n * q >= p * n <==> q >= p
  {
    if q < p {
      assert n * (p - q) > 0;
    }
  }

  lemma EqualReaches(s: string, p: int, q: int)
    requires s != "" && 0 < p && 0 < q
    ensures PartReaches(s, s, p, q) <==> p <= q
  {
    EqualByEdits(s, p, q);
    var a := Words(s);
    if a != {} && 2 * |a * a| * q >= p * (|a| + |a|) {
      EqualByWords(a, p, q);
    }
  }

  /** One of the two parts reaches p/q, in whole numbers. */
  predicate PartReaches(s1: string, s2: string, p: int, q: int) {
    var a, b, longer := Words(s1), Words(s2), if |s1| > |s2| then |s1| else |s2|;
    || (a != {} && b != {} && 2 * |a * b| * q >= p * (|a| + |b|))
    || (longer - Cost(s1, s2)) * q >= p * longer
  }

  lemma MaxReaches(x: real, y: real, z: real)
    ensures MaxReal(x, y) >= z <==> x >= z || y >= z
  {
  }

  lemma DifferentReach(s1: string, s2: string, p: int, q: int)
    requires s1 != s2 && s1 != "" && s2 != "" && 0 < p && 0 < q
    ensures Score(s1, s2) >= p as real / q as real <==> PartReaches(s1, s2, p, q)
  {
    DiceReaches(Words(s1), Words(s2), p, q);
    EditScoreReaches(s1, s2, p, q);
    MaxReaches(Dice(Words(s1), Words(s2)), EditScore(s1, s2), p as real / q as real);
  }

  lemma ConstantReaches(p: int, q: int)
    requires 0 < p && 0 < q
    ensures 1.0 >= p as real / q as real <==> p <= q
    ensures 0.0 < p as real / q as real
  {
    QuotientAtLeast(1, 1, p, q);
    QuotientAtLeast(0, 1, p, q);
    assert 1 as real / 1 as real == 1.0 && 0 as real / 1 as real == 0.0;
  }

  /**
   The score is the larger of its two parts: it reaches a positive quotient p/q exactly when the
   texts are equal and p/q is at most one, or when neither is empty and one of the parts reaches it.
   */
  lemma ScoreReaches(s1: string, s2: string, p: int, q: int)
    requires 0 < p && 0 < q
    ensures Score(s1, s2) >= p as real / q as real <==>
              (s1 == s2 && p <= q) || (s1 != "" && s2 != "" && PartReaches(s1, s2, p, q))
  {
    ConstantReaches(p, q);
    if s1 == s2 {
      if s1 != "" {
        EqualReaches(s1, p, q);
      }
    } else if s1 != "" && s2 != "" {
      DifferentReach(s1, s2, p, q);
    }
  }

  /** The same for the arguments of the matcher. */
  lemma SimilarReaches(fold: string -> string, str1: string, str2: string, p: int, q: int)
    requires 0 < p && 0 < q
    ensures var s1, s2 := Normalize(fold, str1), Normalize(fold, str2);
            Similar(fold, str1, str2) >= p as real / q as real <==>
              (s1 == s2 && p <= q) || (s1 != "" && s2 != "" && PartReaches(s1, s2, p, q))
  {
    ScoreReaches(Normalize(fold, str1), Normalize(fold, str2), p, q);
  }

  lemma DiceInUnitInterval(a: set<string>, b: set<string>)
    ensures 0.0 <= Dice(a, b) <= 1.0
  {
    if a != {} && b != {} {
      CommonBound(a, b);
      QuotientInUnitInterval(2 * |a * b|, |a| + |b|);
    }
  }

  lemma EditScoreInUnitInterval(s1: string, s2: string)
    requires s1 != "" && s2 != ""
    ensures 0.0 <= EditScore(s1, s2) <= 1.0
  {
    LengthBounds(s1, s2);
    var n, d := Cost(s1, s2), Max(|s1|, |s2|);
    QuotientInUnitInterval(n, d);
  }

  lemma ScoreInUnitInterval(s1: string, s2: string)
    ensures 0.0 <= Score(s1, s2) <= 1.0
  {
    if s1 != s2 && s1 != "" && s2 != "" {
      DiceInUnitInterval(Words(s1), Words(s2));
      EditScoreInUnitInterval(s1, s2);
    }
  }

  lemma ScoreSymmetric(s1: string, s2: string)
    ensures Score(s1, s2) == Score(s2, s1)
  {
    Symmetric(s1, s2);
    assert Words(s1) * Words(s2) == Words(s2) * Words(s1);
  }

  /** The top score marks equal text, or text with the same non-empty set of long words. */
  lemma TopScore(s1: string, s2: string)
    ensures Score(s1, s2) == 1.0 <==>
              s1 == s2 || (s1 != "" && s2 != "" && Words(s1) != {} && Words(s1) == Words(s2))
  {
    if s1 != s2 && s1 != "" && s2 != "" {
      var a, b := Words(s1), Words(s2);
      ScoreInUnitInterval(s1, s2);
      DiceReaches(a, b, 1, 1);
      EditScoreReaches(s1, s2, 1, 1);
      CommonBound(a, b);
      LengthBounds(s1, s2);
      ZeroOnlyWhenEqual(s1, s2);
      assert 1 as real / 1 as real == 1.0;
    }
  }

  /** The three facts for the inputs as the caller passes them. */
  lemma SimilarIsNormalizedScore(fold: string -> string, str1: string, str2: string)
    ensures 0.0 <= Similar(fold, str1, str2) <= 1.0
    ensures Similar(fold, str1, str2) == Similar(fold, str2, str1)
    ensures Similar(fold, str1, str2) == 1.0 <==>
              var s1, s2 := Normalize(fold, str1), Normalize(fold, str2);
              s1 == s2 || (Words(s1) != {} && Words(s1) == Words(s2))
  {
    var s1, s2 := Normalize(fold, str1), Normalize(fold, str2);
    ScoreInUnitInterval(s1, s2);
    ScoreSymmetric(s1, s2);
    TopScore(s1, s2);
    EmptyHasNoWords();
  }

  lemma EmptyHasNoWords()
    ensures Words("") == {}
  {
    assert Split("", "") == [""];
  }

  /** Normalising an argument beforehand changes nothing. */
  lemma PreNormalizing(fold: string -> string, str1: string, str2: string)
    requires FixesPlain(fold)
    ensures Similar(fold, Normalize(fold, str1), str2) == Similar(fold, str1, str2)
    ensures Similar(fold, str1, Normalize(fold, str2)) == Similar(fold, str1, str2)
  {
    NormalizeIdempotent(fold, str1);
    NormalizeIdempotent(fold, str2);
  }

  // ----- The threshold -----

  const THRESHOLD := 0.80

  /** The two integer tests behind "score >= 0.80". */
  predicate CloseByEdits(s1: string, s2: string) {
    5 * Cost(s1, s2) <= Max(|s1|, |s2|)
  }

  predicate CloseByWords(s1: string, s2: string) {
    && Words(s1) != {}
    && Words(s2) != {}
    && 5 * |Words(s1) * Words(s2)| >= 2 * (|Words(s1)| + |Words(s2)|)
  }

  predicate Close(s1: string, s2: string) {
    s1 == s2 || (s1 != "" && s2 != "" && (CloseByEdits(s1, s2) || CloseByWords(s1, s2)))
  }

  lemma ThresholdIsClose(s1: string, s2: string)
    ensures Score(s1, s2) >= THRESHOLD <==> Close(s1, s2)
  {
    if s1 != s2 && s1 != "" && s2 != "" {
      DiceReaches(Words(s1), Words(s2), 4, 5);
      EditScoreReaches(s1, s2, 4, 5);
      assert 4 as real / 5 as real == THRESHOLD;
    }
  }

  /** The same test with the matrix skipped whenever the lengths alone rule it out. */
  predicate ClosePruned(s1: string, s2: string) {
    || s1 == s2
    || (s1 != "" && s2 != "" &&
        (CloseByWords(s1, s2) ||
         (5 * Min(|s1|, |s2|) >= 4 * Max(|s1|, |s2|) && CloseByEdits(s1, s2))))
  }

  /** Rejecting on length alone never loses a match. */
  lemma LengthPruning(s1: string, s2: string)
    ensures Score(s1, s2) >= THRESHOLD <==> ClosePruned(s1, s2)
  {
    ThresholdIsClose(s1, s2);
    LengthBounds(s1, s2);
  }
}
