/**
 * Stage 4 of the extractor: the integer score of one surviving value.
 * The score is a pattern bonus, plus a length bonus capped at 100, plus 20
 * per digit, plus 100 per hyphen, minus 100 when letters outnumber twice
 * the digits.
 */
module Scoring {
  import opened Chars
  import opened Patterns

  /** The bonus for the recogniser that found the value. */
  function PatternBonus(pat: Pattern): nat
  {
    match pat
    case Labeled => 1000
    case TubiFormat => 800
    case Alphanumeric => 600
    case Numeric => 400
  }

  /** `min(len(value) * 10, 100)`: ten per character, saturating at ten characters. */
  function LengthBonus(v: string): (b: nat)
    ensures b <= 100
    ensures b == 100 <==> |v| >= 10
    ensures |v| < 10 ==> b == 10 * |v|
  {
    Min(|v| * 10, 100)
  }

  /** The 100-point penalty for a value with more than twice as many letters as digits. */
  function LetterPenalty(v: string): nat
  {
    if Count(v, Letters) > Count(v, Digits) * 2 then 100 else 0
  }

  /** The score of value `v` found by `pat`. */
  function Score(v: string, pat: Pattern): int
  {
    PatternBonus(pat) + LengthBonus(v) + Count(v, Digits) * 20 + Count(v, Hyphens) * 100 - LetterPenalty(v)
  }

  /** A counting loop: `sum(c.isdigit() for c in value)`, `value.count('-')`, `sum(c.isalpha() for c in value)`. */
  method CountClass(v: string, k: CharClass) returns (n: nat)
    ensures n == Count(v, k)
  {
    n := 0;
    for i := 0 to |v|
      invariant n == Count(v[..i], k)
    {
      assert v[..i + 1][..i] == v[..i];
      if InClass(v[i], k) {
        n := n + 1;
      }
    }
    assert v[..|v|] == v;
  }

  /** The body of the scoring loop for one value: the score accumulated step by step. */
  method ScoreCandidate(value: string, pattern: Pattern) returns (score: int)
    ensures score == Score(value, pattern)
  {
    score := 0;
    match pattern {
      case Labeled => score := score + 1000;
      case TubiFormat => score := score + 800;
      case Alphanumeric => score := score + 600;
      case Numeric => score := score + 400;
    }
    score := score + Min(|value| * 10, 100);
    var digitCount := CountClass(value, Digits);
    score := score + digitCount * 20;
    var hyphenCount := CountClass(value, Hyphens);
    score := score + hyphenCount * 100;
    var letterCount := CountClass(value, Letters);
    if letterCount > digitCount * 2 {
      score := score - 100;
    }
  }

  /** The score lies between the pattern bonus less the penalty and the bonus plus 100 per character. */
  lemma ScoreBounds(v: string, pat: Pattern)
    ensures PatternBonus(pat) - 100 <= Score(v, pat) <= PatternBonus(pat) + 100 + 100 * |v|
  {
    DigitsAndHyphensDisjoint(v);
  }

  lemma {:induction false} DigitsAndHyphensDisjoint(v: string)
    ensures Count(v, Digits) + Count(v, Hyphens) <= |v|
  {
    if v != [] {
      DigitsAndHyphensDisjoint(v[..|v| - 1]);
    }
  }

  /** For one value the four patterns are 200 points apart: labeled, tubi_format, alphanumeric, numeric. */
  lemma ScorePatternOrder(v: string)
    ensures Score(v, Labeled) == Score(v, TubiFormat) + 200
    ensures Score(v, TubiFormat) == Score(v, Alphanumeric) + 200
    ensures Score(v, Alphanumeric) == Score(v, Numeric) + 200
  {
  }

  /** One more digit at the end raises the score by at least 20 (and lifts the penalty if it tips the balance). */
  lemma ScoreGrowsWithDigit(v: string, pat: Pattern, d: char)
    requires IsDigit(d)
    ensures Score(v + [d], pat) >= Score(v, pat) + 20
  {
    assert (v + [d])[..|v|] == v;
  }

  /** One more hyphen at the end raises the score by at least 100. */
  lemma ScoreGrowsWithHyphen(v: string, pat: Pattern)
    ensures Score(v + ['-'], pat) >= Score(v, pat) + 100
  {
    assert (v + ['-'])[..|v|] == v;
  }
}
