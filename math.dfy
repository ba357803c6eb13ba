/**
 * The math captcha (classes/kohana/captcha/math.php): two or three random
 * operands whose sum is the answer, shown as "a + b = ".
 */
module MathDriver {
  import opened Wrappers
  import opened Text

  /** The difficulty tiers the configured complexity selects. */
  datatype Tier = Easy | Normal | Difficult

  function TierOf(complexity: int): (t: Tier)
    ensures t == Easy <==> complexity < 4
    ensures t == Normal <==> 4 <= complexity < 7
    ensures t == Difficult <==> 7 <= complexity
  {
    if complexity < 4 then Easy else if complexity < 7 then Normal else Difficult
  }

  /** The inclusive bounds of the `mt_rand` draws of a tier, in draw order. */
  function Ranges(t: Tier): seq<(int, int)> {
    match t
    case Easy => [(1, 5), (1, 4)]
    case Normal => [(10, 20), (1, 10)]
    case Difficult => [(100, 200), (10, 20), (1, 10)]
  }

  /** `draws` are values the tier's `mt_rand` calls can return. */
  predicate Drawn(t: Tier, draws: seq<int>) {
    && |draws| == |Ranges(t)|
    && forall i :: 0 <= i < |draws| ==> Ranges(t)[i].0 <= draws[i] <= Ranges(t)[i].1
  }

  /**
   * `array_sum`: with non-negative operands no operand exceeds the sum, and
   * positive operands sum to at least their number.
   */
  function Sum(ns: seq<int>): (r: int)
    ensures (forall i :: 0 <= i < |ns| ==> ns[i] >= 0) ==> forall i :: 0 <= i < |ns| ==> ns[i] <= r
    ensures (forall i :: 0 <= i < |ns| ==> ns[i] > 0) ==> r >= |ns|
  {
    if ns == [] then 0 else ns[0] + Sum(ns[1..])
  }

  /**
   * `implode(' + ', $numbers)`: empty exactly for no operands; for
   * non-negative operands only digits, spaces and '+', starting and ending
   * with a digit.
   */
  function Join(ns: seq<int>): (r: string)
    ensures r == [] <==> ns == []
    ensures (forall i :: 0 <= i < |ns| ==> ns[i] >= 0) ==>
      forall j :: 0 <= j < |r| ==> IsDigit(r[j]) || r[j] == ' ' || r[j] == '+'
    ensures (forall i :: 0 <= i < |ns| ==> ns[i] >= 0) && ns != [] ==>
      IsDigit(r[0]) && IsDigit(r[|r| - 1])
  {
    if ns == [] then ""
    else if |ns| == 1 then IntToString(ns[0])
    else IntToString(ns[0]) + " + " + Join(ns[1..])
  }

  /** The exercise shown to the user. */
  function Prompt(ns: seq<int>): string {
    Join(ns) + " = "
  }

  /** The leading decimal digits of `s` and what follows them. */
  function SpanDigits(s: string): (r: (string, string))
    ensures r.0 + r.1 == s && AllDigits(r.0)
    ensures r.1 != [] ==> !IsDigit(r.1[0])
  {
    if s == [] || !IsDigit(s[0]) then ([], s)
    else
      var rest := SpanDigits(s[1..]);
      ([s[0]] + rest.0, rest.1)
  }

  lemma {:induction false} SpanOfDigits(d: string, rest: string)
    requires AllDigits(d)
    requires rest != [] ==> !IsDigit(rest[0])
    ensures SpanDigits(d + rest) == (d, rest)
  {
    if d != [] {
      assert (d + rest)[0] == d[0] && (d + rest)[1..] == d[1..] + rest;
      SpanOfDigits(d[1..], rest);
      assert [d[0]] + d[1..] == d;
    } else {
      assert d + rest == rest;
    }
  }

  /**
   * Reads an exercise back: non-negative decimal operands separated by
   * " + " and closed by " = "; None for any other text.
   */
  function ParsePrompt(s: string): Option<seq<int>>
    decreases |s|
  {
    var span := SpanDigits(s);
    if span.0 == [] then None
    else if span.1 == " = " then Some([DigitsValue(span.0)])
    else if |span.1| >= 3 && span.1[..3] == " + " then
      match ParsePrompt(span.1[3..])
      case None => None
      case Some(tail) => Some([DigitsValue(span.0)] + tail)
    else None
  }

  /** The exercise of non-negative operands names exactly those operands, in order. */
  lemma {:induction false} PromptRoundTrip(ns: seq<int>)
    requires |ns| >= 1
    requires forall i :: 0 <= i < |ns| ==> ns[i] >= 0
    ensures ParsePrompt(Prompt(ns)) == Some(ns)
    decreases |ns|
  {
    var d := Decimal(ns[0]);
    DecimalRoundTrip(ns[0]);
    if |ns| == 1 {
      assert Prompt(ns) == d + " = ";
      SpanOfDigits(d, " = ");
      assert [ns[0]] == ns;
    } else {
      var rest := " + " + Prompt(ns[1..]);
      assert Prompt(ns) == d + rest;
      SpanOfDigits(d, rest);
      assert rest != " = " by { assert |rest| > 3; }
      assert rest[..3] == " + " && rest[3..] == Prompt(ns[1..]);
      PromptRoundTrip(ns[1..]);
      assert [ns[0]] + ns[1..] == ns;
    }
  }

  /** The answer of each tier lies in [2,9], [11,30] or [111,230]. */
  lemma AnswerBounds(t: Tier, draws: seq<int>)
    requires Drawn(t, draws)
    ensures t == Easy ==> 2 <= Sum(draws) <= 9
    ensures t == Normal ==> 11 <= Sum(draws) <= 30
    ensures t == Difficult ==> 111 <= Sum(draws) <= 230
  {
    assert Sum(draws[|draws| - 1..]) == draws[|draws| - 1];
  }

  class MathCaptcha {
    /** The exercise kept for `render` (`$math_exercice`). */
    var exercise: string

    constructor ()
      ensures exercise == ""
    {
      exercise := "";
    }

    /**
     * `generate_challenge`: draws the operands of the tier the complexity
     * selects (`draws` are the successive `mt_rand` results), keeps the
     * exercise for `render` and returns the sum.
     */
    method GenerateChallenge(complexity: int, draws: seq<int>) returns (answer: int)
      requires Drawn(TierOf(complexity), draws)
      modifies this`exercise
      ensures answer == Sum(draws)
      ensures exercise == Prompt(draws) && ParsePrompt(exercise) == Some(draws)
      ensures Render(true) == exercise && Render(false) == exercise
      ensures complexity < 4 ==> |draws| == 2 && 2 <= answer <= 9
      ensures 4 <= complexity < 7 ==> |draws| == 2 && 11 <= answer <= 30
      ensures 7 <= complexity ==> |draws| == 3 && 111 <= answer <= 230
    {
      var numbers: seq<int> := [];
      if complexity < 4 {
        numbers := numbers + [draws[0]];
        numbers := numbers + [draws[1]];
      } else if complexity < 7 {
        numbers := numbers + [draws[0]];
        numbers := numbers + [draws[1]];
      } else {
        numbers := numbers + [draws[0]];
        numbers := numbers + [draws[1]];
        numbers := numbers + [draws[2]];
      }
      assert numbers == draws;
      exercise := Prompt(numbers);
      answer := Sum(numbers);
      PromptRoundTrip(draws);
      AnswerBounds(TierOf(complexity), draws);
    }

    /** `render`: the exercise kept by the last `generate_challenge`, whatever the argument. */
    function Render(html: bool): (r: string)
      reads this
      ensures r == exercise
    {
      exercise
    }
  }
}
